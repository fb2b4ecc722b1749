/** The parts of Go's `strings`, `strconv` and `net` that share links are read and
    written with. Go strings are byte strings: a `char` stands for one byte. */
module Text {
  import opened Common

  // ---------------------------------------------------------------- searching

  /** `strings.Index` for one byte; |s| stands for "not found". */
  function Index(s: string, c: char): (i: nat)
    ensures i <= |s| && c !in s[..i] && (i < |s| ==> s[i] == c)
    ensures c in s <==> i < |s|
  {
    if s == "" then 0
    else if s[0] == c then 0
    else
      var i := 1 + Index(s[1..], c);
      assert s[..i] == [s[0]] + s[1..][..i-1];
      i
  }

  /** `strings.LastIndex` for one byte; |s| stands for "not found". */
  function LastIndex(s: string, c: char): (i: nat)
    ensures i <= |s| && (i < |s| ==> s[i] == c && c !in s[i+1..])
    ensures c in s <==> i < |s|
  {
    if s == "" then 0
    else
      var i := LastIndex(s[1..], c);
      if i < |s| - 1 then
        assert s[i+2..] == s[1..][i+1..];
        i + 1
      else if s[0] == c then 0
      else |s|
  }

  lemma IndexAt(s: string, c: char, i: nat)
    requires i < |s| && s[i] == c && c !in s[..i]
    ensures Index(s, c) == i
  {
    var k := Index(s, c);
    assert s[i] in s;
    assert forall j :: 0 <= j < i ==> s[j] == s[..i][j];
    assert forall j :: 0 <= j < k ==> s[j] == s[..k][j];
  }

  lemma LastIndexAt(s: string, c: char, i: nat)
    requires i < |s| && s[i] == c && c !in s[i+1..]
    ensures LastIndex(s, c) == i
  {
    var k := LastIndex(s, c);
    assert s[i] in s;
    assert forall j :: i < j < |s| ==> s[j] == s[i+1..][j-i-1];
    assert forall j :: k < j < |s| ==> s[j] == s[k+1..][j-k-1];
  }

  lemma LastIndexAtLeast(s: string, c: char, i: nat)
    requires i < |s| && s[i] == c
    ensures i <= LastIndex(s, c) < |s|
  {
    var k := LastIndex(s, c);
    assert s[i] in s;
    assert forall j :: k < j < |s| ==> s[j] == s[k+1..][j-k-1];
  }

  lemma DropPast(a: string, b: string, n: nat)
    requires n <= |b|
    ensures (a + b)[|a| + n..] == b[n..]
  {}

  lemma LastIndexAfter(a: string, b: string, c: char)
    requires c in b
    ensures LastIndex(a + b, c) == |a| + LastIndex(b, c)
    ensures (a + b)[LastIndex(a + b, c) + 1..] == b[LastIndex(b, c) + 1..]
  {
    var k := LastIndex(b, c);
    LastIndexIn(a, b, a + b, c, k);
  }

  lemma LastIndexIn(a: string, b: string, s: string, c: char, k: nat)
    requires s == a + b && k < |b| && b[k] == c && c !in b[k+1..]
    ensures LastIndex(s, c) == |a| + k && s[|a| + k + 1..] == b[k+1..]
  {
    DropPast(a, b, k + 1);
    assert s[|a| + k] == c;
    LastIndexAt(s, c, |a| + k);
  }

  /** The last occurrence lies before a tail that has none. */
  lemma LastIndexBefore(s: string, c: char, n: nat)
    requires n < |s| && c in s && s[n] != c && c !in s[n+1..]
    ensures LastIndex(s, c) < n
  {
    var k := LastIndex(s, c);
    assert forall j :: n < j < |s| ==> s[j] == s[n+1..][j-n-1];
  }

  /** `strings.TrimSuffix(s, "/")`. */
  function TrimSlash(s: string): string {
    if s != "" && s[|s|-1] == '/' then s[..|s|-1] else s
  }

  /** `strings.Join`. */
  function Join(lines: seq<string>, sep: string): string {
    if lines == [] then ""
    else if |lines| == 1 then lines[0]
    else lines[0] + sep + Join(lines[1..], sep)
  }

  lemma {:induction false} SplitWhole(line: string, sep: char)
    requires sep !in line
    ensures Split(line, sep) == [line]
  {
    if line != "" {
      SplitWhole(line[1..], sep);
      assert [line[0]] + line[1..] == line;
    }
  }

  lemma {:induction false} SplitAhead(line: string, sep: char, rest: string)
    requires sep !in line
    ensures Split(line + [sep] + rest, sep) == [line] + Split(rest, sep)
  {
    var s := line + [sep] + rest;
    if line == "" {
      assert s[1..] == rest;
    } else {
      assert s[1..] == line[1..] + [sep] + rest;
      SplitAhead(line[1..], sep, rest);
      assert [line[0]] + line[1..] == line;
    }
  }

  /** Splitting what was joined gives the lines back, exactly those. */
  lemma {:induction false} SplitOfJoin(lines: seq<string>, sep: char)
    requires lines != [] && forall i :: 0 <= i < |lines| ==> sep !in lines[i]
    ensures Split(Join(lines, [sep]), sep) == lines
  {
    if |lines| == 1 {
      SplitWhole(lines[0], sep);
    } else {
      SplitOfJoin(lines[1..], sep);
      SplitAhead(lines[0], sep, Join(lines[1..], [sep]));
      assert [lines[0]] + lines[1..] == lines;
    }
  }

  /** Joining what was split gives the text back, and no part holds the separator. */
  lemma {:induction false} JoinOfSplit(s: string, sep: char)
    ensures Join(Split(s, sep), [sep]) == s
    ensures forall i :: 0 <= i < |Split(s, sep)| ==> sep !in Split(s, sep)[i]
  {
    if s != "" {
      var rest := Split(s[1..], sep);
      JoinOfSplit(s[1..], sep);
      assert s == [s[0]] + s[1..];
      if s[0] == sep {
        assert ([""] + rest)[1..] == rest;
        assert Join([""] + rest, [sep]) == [sep] + s[1..];
      } else {
        JoinLonger(s[0], rest, sep);
      }
    }
  }

  lemma JoinLonger(c: char, lines: seq<string>, sep: char)
    requires lines != []
    ensures Join([[c] + lines[0]] + lines[1..], [sep]) == [c] + Join(lines, [sep])
  {
    var longer := [[c] + lines[0]] + lines[1..];
    if |lines| > 1 {
      assert longer[1..] == lines[1..];
      assert [c] + lines[0] + [sep] + Join(lines[1..], [sep]) == [c] + (lines[0] + [sep] + Join(lines[1..], [sep]));
    }
  }

  // ---------------------------------------------------------------- numbers

  predicate IsDigit(c: char) { '0' <= c <= '9' }

  predicate AllDigits(s: string) { forall i :: 0 <= i < |s| ==> IsDigit(s[i]) }

  function Digit(n: nat): (c: char)
    requires n < 10
    ensures IsDigit(c)
  {
    (n + '0' as int) as char
  }

  /** `%d`. */
  function Itoa(n: nat): (s: string)
    ensures s != "" && AllDigits(s)
  {
    if n < 10 then [Digit(n)] else Itoa(n / 10) + [Digit(n % 10)]
  }

  function FormatInt(n: int): string {
    if n < 0 then "-" + Itoa(-n) else Itoa(n)
  }

  function Value(s: string): nat
    requires AllDigits(s)
  {
    if s == "" then 0 else Value(s[..|s|-1]) * 10 + (s[|s|-1] as int - '0' as int)
  }

  const INT64_MAX := 0x7FFF_FFFF_FFFF_FFFF

  /** `strconv.Atoi` on a 64-bit platform. */
  function Atoi(s: string): Option<int> {
    var signed := s != "" && (s[0] == '-' || s[0] == '+');
    var digits := if signed then s[1..] else s;
    if digits == "" || !AllDigits(digits) then None
    else
      var v := if signed && s[0] == '-' then 0 - Value(digits) else Value(digits);
      if -INT64_MAX - 1 <= v <= INT64_MAX then Some(v) else None
  }

  /** The value that `strconv.Atoi` returns beside its error: 0 for a text that is no number,
      the nearest bound for one out of range. */
  function AtoiValue(s: string): int {
    var signed := s != "" && (s[0] == '-' || s[0] == '+');
    var digits := if signed then s[1..] else s;
    if digits == "" || !AllDigits(digits) then 0
    else if Atoi(s).Some? then Atoi(s).value
    else if s[0] == '-' then -INT64_MAX - 1
    else INT64_MAX
  }

  lemma {:induction false} ValueOfItoa(n: nat)
    ensures Value(Itoa(n)) == n
  {
    if n >= 10 {
      ValueOfItoa(n / 10);
      var s := Itoa(n);
      assert s[..|s|-1] == Itoa(n / 10);
    } else {
      assert Itoa(n)[..0] == "";
    }
  }

  lemma AtoiOfItoa(n: nat)
    requires n <= INT64_MAX
    ensures Atoi(Itoa(n)) == Some(n)
  {
    ValueOfItoa(n);
    assert IsDigit(Itoa(n)[0]);
  }

  // ---------------------------------------------------------------- host:port

  datatype HostPort = HostPort(host: string, port: string) | BadAddress

  /** `net.SplitHostPort`. */
  function SplitHostPort(hp: string): HostPort {
    var i := LastIndex(hp, ':');
    if i == |hp| then BadAddress // missing port
    else if hp[0] == '[' then
      var end := Index(hp, ']');
      if end == |hp| || end + 1 != i then BadAddress
      else if '[' in hp[1..] || ']' in hp[end+1..] then BadAddress
      else HostPort(hp[1..end], hp[i+1..])
    else if ':' in hp[..i] || '[' in hp || ']' in hp then BadAddress
    else HostPort(hp[..i], hp[i+1..])
  }

  function FormatHost(host: string): string {
    if ':' in host then "[" + host + "]" else host
  }

  /** No bracket of its own. */
  predicate Unbracketed(host: string) { '[' !in host && ']' !in host }

  lemma SplitPlain(host: string, port: string)
    requires ':' !in host && ':' !in port && '[' !in port && ']' !in port
    ensures SplitHostPort(host + ":" + port) == HostPort(host, port) <==> Unbracketed(host)
  {
    var hp := host + ":" + port;
    assert hp[|host|] == ':' && hp[|host|+1..] == port && hp[..|host|] == host;
    LastIndexAt(hp, ':', |host|);
    if hp[0] == '[' { assert host != "" && host[0] == '['; }
  }

  /** `hp` is `host` in brackets, a colon and `port`. */
  ghost predicate Bracketed(hp: string, host: string, port: string) {
    var n := |host|;
    && |hp| == n + 3 + |port|
    && hp[0] == '[' && hp[n+1] == ']' && hp[n+2] == ':'
    && hp[1..n+1] == host && hp[n+3..] == port
  }

  lemma BracketPositions(hp: string, host: string, port: string)
    requires Bracketed(hp, host, port) && ':' !in port
    ensures LastIndex(hp, ':') == |host| + 2
    ensures Index(hp, ']') == if ']' in host then Index(host, ']') + 1 else |host| + 1
  {
    var n := |host|;
    LastIndexAt(hp, ':', n + 2);
    var k := Index(host, ']');
    assert hp[k+1] == ']' by { if k < n { assert host[k] == hp[1..n+1][k]; } }
    forall j | 0 <= j < k + 1 ensures hp[j] != ']' {
      if j > 0 { assert hp[j] == hp[1..n+1][j-1] == host[..k][j-1]; }
    }
    IndexAt(hp, ']', k + 1);
  }

  lemma SplitBracketed(hp: string, host: string, port: string)
    requires Bracketed(hp, host, port) && ':' !in port && '[' !in port && ']' !in port
    ensures SplitHostPort(hp) == HostPort(host, port) <==> Unbracketed(host)
  {
    var n := |host|;
    BracketPositions(hp, host, port);
    if ']' !in host {
      assert forall j :: 1 <= j <= n ==> hp[j] == hp[1..n+1][j-1];
      assert forall j :: n + 3 <= j < |hp| ==> hp[j] == hp[n+3..][j-n-3];
      assert ']' !in hp[n+2..];
      if '[' in host {
        var j :| 0 <= j < n && host[j] == '[';
        assert hp[1..][j] == hp[j+1] == '[';
      } else {
        assert '[' !in hp[1..];
      }
    }
  }

  /** Splitting what was joined gives the parts back exactly for hosts without brackets;
      any other host comes back as an error or as something else. */
  lemma SplitJoined(host: string, port: string)
    requires ':' !in port && '[' !in port && ']' !in port
    ensures SplitHostPort(FormatHost(host) + ":" + port) == HostPort(host, port) <==> Unbracketed(host)
  {
    if ':' in host { SplitBracketed(FormatHost(host) + ":" + port, host, port); } else { SplitPlain(host, port); }
  }

  /** A host read from a shorter text is shorter. */
  lemma SplitShorter(hp: string)
    ensures SplitHostPort(hp).HostPort? ==>
              var r := SplitHostPort(hp);
              && |r.host| + 1 + |r.port| <= |hp|
              && |r.port| == |hp| - 1 - LastIndex(hp, ':')
              && (hp[0] == '[' ==> |r.host| + 3 + |r.port| <= |hp|)
              && (hp[0] != '[' ==> ']' !in hp)
  {}
}
