/** Vocabulary shared by the other modules: an option type, Go's string order, the text
    normalisations the program applies to lines and short codes, and lists without
    repetition. Text is a sequence of Unicode characters here; Go compares strings by
    their UTF-8 bytes, which is the same order. */
module Common {
  datatype Option<+T> = None | Some(value: T)

  /** Go's `a < b` on strings: lexicographic, a proper prefix comes first. */
  predicate StrLess(a: string, b: string) {
    if b == "" then false
    else if a == "" then true
    else a[0] < b[0] || (a[0] == b[0] && StrLess(a[1..], b[1..]))
  }

  lemma {:induction false} StrLessTotal(a: string, b: string)
    ensures a == b ==> !StrLess(a, b) && !StrLess(b, a)
    ensures a != b ==> (StrLess(a, b) <==> !StrLess(b, a))
  {
    if a != "" && b != "" {
      StrLessTotal(a[1..], b[1..]);
      assert a == [a[0]] + a[1..] && b == [b[0]] + b[1..];
    }
  }

  lemma {:induction false} StrLessTransitive(a: string, b: string, c: string)
    requires StrLess(a, b) && StrLess(b, c)
    ensures StrLess(a, c)
  {
    if a != "" && a[0] == b[0] == c[0] {
      StrLessTransitive(a[1..], b[1..], c[1..]);
    }
  }

  /** The order in one formula: after a common beginning, the first text ends or goes on with
      the smaller character. */
  ghost predicate ComesFirst(a: string, b: string, n: nat) {
    n <= |a| && n < |b| && a[..n] == b[..n] && (n == |a| || a[n] < b[n])
  }

  lemma CommonStart(a: string, b: string, n: nat)
    requires n > 0 && ComesFirst(a, b, n)
    ensures a != "" && b != "" && a[0] == b[0]
  {
    assert a[..n][0] == a[0] && b[..n][0] == b[0];
  }

  lemma {:induction false} StrLessIs(a: string, b: string)
    ensures StrLess(a, b) <==> exists n: nat :: ComesFirst(a, b, n)
  {
    forall n: nat | n > 0 && ComesFirst(a, b, n) ensures a != "" && b != "" && a[0] == b[0] { CommonStart(a, b, n); }
    if a == "" || b == "" || a[0] != b[0] {
      if b != "" && (a == "" || a[0] < b[0]) { assert ComesFirst(a, b, 0); }
    } else {
      StrLessIs(a[1..], b[1..]);
      if StrLess(a, b) {
        var n: nat :| ComesFirst(a[1..], b[1..], n);
        ComesFirstTail(a, b, n);
      }
      forall n: nat | ComesFirst(a, b, n) ensures StrLess(a, b) {
        if n > 0 { ComesFirstTail(a, b, n - 1); }
      }
    }
  }

  lemma ComesFirstTail(a: string, b: string, n: nat)
    requires a != "" && b != "" && a[0] == b[0]
    ensures ComesFirst(a, b, n + 1) <==> ComesFirst(a[1..], b[1..], n)
  {
    if n < |a| && n < |b| {
      assert a[..n+1] == [a[0]] + a[1..][..n] && b[..n+1] == [b[0]] + b[1..][..n];
    }
  }

  /** Go's `unicode.IsSpace`. */
  predicate IsSpace(c: char) {
    var n := c as int;
    || 9 <= n <= 13 || n == 0x20 || n == 0x85 || n == 0xA0 || n == 0x1680 || 0x2000 <= n <= 0x200A
    || n == 0x2028 || n == 0x2029 || n == 0x202F || n == 0x205F || n == 0x3000
  }

  /** `strings.TrimSpace`. */
  function TrimSpace(s: string): (r: string)
    ensures |r| <= |s|
    ensures r != "" ==> !IsSpace(r[0]) && !IsSpace(r[|r|-1])
  {
    if s == "" then ""
    else if IsSpace(s[0]) then TrimSpace(s[1..])
    else if IsSpace(s[|s|-1]) then TrimSpace(s[..|s|-1])
    else s
  }

  /** `unicode.ToUpper` as far as it yields a letter from A to Z: those are the upper cases
      of a to z, of the dotless i and of the long s, and of nothing else. Any other
      character is left alone here, while Go may replace it by another non-ASCII one. */
  function UpperChar(c: char): char {
    if 'a' <= c <= 'z' then (c as int - 32) as char
    else if c == '\U{0131}' then 'I'
    else if c == '\U{017F}' then 'S'
    else c
  }

  /** `strings.ToUpper`, as far as the result is ASCII. */
  function ToUpper(s: string): (r: string)
    ensures |r| == |s|
    ensures forall i :: 0 <= i < |s| ==> r[i] == UpperChar(s[i])
  {
    seq(|s|, i requires 0 <= i < |s| => UpperChar(s[i]))
  }

  /** `strings.Split` on a one-character separator. */
  function Split(s: string, sep: char): (parts: seq<string>)
    ensures |parts| >= 1
  {
    if s == "" then [""]
    else
      var rest := Split(s[1..], sep);
      if s[0] == sep then [""] + rest else [[s[0]] + rest[0]] + rest[1..]
  }

  /** `strings.HasPrefix`. */
  predicate HasPrefix(s: string, prefix: string) { prefix <= s }

  ghost predicate NoRepeat<T>(s: seq<T>) {
    forall i, j :: 0 <= i < j < |s| ==> s[i] != s[j]
  }

  lemma {:induction false} OnceInNoRepeat<T>(s: seq<T>, x: T)
    requires NoRepeat(s)
    ensures multiset(s)[x] <= 1
  {
    if s != [] {
      assert s == s[..|s|-1] + [s[|s|-1]];
      OnceInNoRepeat(s[..|s|-1], x);
      if s[|s|-1] == x { assert x !in s[..|s|-1]; }
    }
  }

  lemma TwiceInSeq<T>(s: seq<T>, i: nat, j: nat)
    requires i < j < |s| && s[i] == s[j]
    ensures multiset(s)[s[i]] >= 2
  {
    assert s == s[..j] + [s[j]] + s[j+1..];
    assert s[i] in s[..j];
  }

  /** `r` is the part of `s` from `i` to `j`, and the rest is blank. */
  ghost predicate TrimmedTo(s: string, r: string, i: nat, j: nat) {
    i <= j <= |s| && r == s[i..j] && forall k :: 0 <= k < i || j <= k < |s| ==> IsSpace(s[k])
  }

  lemma BlankAhead(c: char, s: string, r: string, i: nat, j: nat)
    requires IsSpace(c) && TrimmedTo(s, r, i, j)
    ensures TrimmedTo([c] + s, r, i + 1, j + 1)
  {
    var t := [c] + s;
    assert t[i+1..j+1] == s[i..j];
    assert forall k :: 0 < k < |t| ==> t[k] == s[k-1];
  }

  lemma BlankBehind(s: string, c: char, r: string, i: nat, j: nat)
    requires IsSpace(c) && TrimmedTo(s, r, i, j)
    ensures TrimmedTo(s + [c], r, i, j)
  {
    var t := s + [c];
    assert t[i..j] == s[i..j];
    assert forall k :: 0 <= k < |s| ==> t[k] == s[k];
  }

  /** What is trimmed away is blank, all of it and from the ends only. */
  lemma {:induction false} TrimmedAway(s: string) returns (i: nat, j: nat)
    ensures TrimmedTo(s, TrimSpace(s), i, j)
  {
    i, j := 0, |s|;
    if s != "" && IsSpace(s[0]) {
      i, j := TrimmedAway(s[1..]);
      BlankAhead(s[0], s[1..], TrimSpace(s), i, j);
      assert [s[0]] + s[1..] == s;
      i, j := i + 1, j + 1;
    } else if s != "" && IsSpace(s[|s|-1]) {
      i, j := TrimmedAway(s[..|s|-1]);
      BlankBehind(s[..|s|-1], s[|s|-1], TrimSpace(s), i, j);
      assert s[..|s|-1] + [s[|s|-1]] == s;
    } else {
      assert s[0..|s|] == s;
    }
  }

  /** The positions of the elements of `s` that satisfy `p`, in order. */
  ghost predicate Selects<T>(places: seq<nat>, s: seq<T>, p: T -> bool) {
    && (forall i, j :: 0 <= i < j < |places| ==> places[i] < places[j])
    && (forall i :: 0 <= i < |places| ==> places[i] < |s|)
    && forall k: nat :: k < |s| ==> (k in places <==> p(s[k]))
  }

  lemma SelectsSnoc<T>(places: seq<nat>, s: seq<T>, x: T, p: T -> bool)
    requires Selects(places, s, p)
    ensures Selects(if p(x) then places + [|s|] else places, s + [x], p)
  {
    var longer := if p(x) then places + [|s|] else places;
    assert |s| !in places;
    forall k: nat | k < |s| + 1 ensures k in longer <==> p((s + [x])[k]) {
      assert k in places + [|s|] <==> k in places || k == |s|;
    }
  }
}
