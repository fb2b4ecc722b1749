/** Reading subscription lines into unique records (internal/parse/parse.go). */
module ParseLines {
  import opened Common
  import opened Records

  datatype Scheme = Vless | VMess | Trojan | Shadowsocks | Hysteria2

  /** The link parsers, the deduplication key of a record and its hash identity. */
  datatype Reader = Reader(
    parse: (Scheme, string) -> Option<Record>,
    key: Record -> string,
    identity: Record -> string)

  const PLACEHOLDERS := {"example.com", "example.org", "0.0.0.0", "127.0.0.1", "localhost", "::1"}

  function SchemeOf(s: string): Option<Scheme> {
    if HasPrefix(s, "vless://") then Some(Vless)
    else if HasPrefix(s, "vmess://") then Some(VMess)
    else if HasPrefix(s, "trojan://") then Some(Trojan)
    else if HasPrefix(s, "ss://") then Some(Shadowsocks)
    else if HasPrefix(s, "hysteria2://") || HasPrefix(s, "hy2://") then Some(Hysteria2)
    else None
  }

  /** The record a line stands for; None for a line that is skipped. */
  function Candidate(reader: Reader, line: string): (r: Option<Record>)
    ensures r.Some? ==> r.value.host != "" && 0 < r.value.port <= 65535 && r.value.host !in PLACEHOLDERS
  {
    var trimmed := TrimSpace(line);
    if trimmed == "" || HasPrefix(trimmed, "#") then None
    else
      match SchemeOf(trimmed)
      case None => None
      case Some(scheme) =>
        match reader.parse(scheme, trimmed)
        case None => None
        case Some(r) =>
          if r.host == "" || r.port <= 0 || r.port > 65535 || r.host in PLACEHOLDERS then None else Some(r)
  }

  datatype Parsed = Parsed(records: seq<Record>, skipped: nat, duplicates: nat)

  function Keys(reader: Reader, records: seq<Record>): set<string> {
    set r | r in records :: reader.key(r)
  }

  /** What the lines are read to: the first record of every key, in order. */
  function Read(reader: Reader, lines: seq<string>): Parsed {
    if lines == [] then Parsed([], 0, 0)
    else
      var before := Read(reader, lines[..|lines|-1]);
      match Candidate(reader, lines[|lines|-1])
      case None => before.(skipped := before.skipped + 1)
      case Some(r) =>
        if reader.key(r) in Keys(reader, before.records) then before.(duplicates := before.duplicates + 1)
        else before.(records := before.records + [r])
  }

  lemma KeysSnoc(reader: Reader, records: seq<Record>, r: Record)
    ensures Keys(reader, records + [r]) == Keys(reader, records) + {reader.key(r)}
  {
    assert forall x :: x in records + [r] <==> x in records || x == r;
  }

  method ParseAllLines(reader: Reader, lines: seq<string>) returns (result: Parsed)
    ensures result == Read(reader, lines)
  {
    var seen: set<string> := {};
    var records: seq<Record> := [];
    var skipped: nat, duplicates: nat := 0, 0;
    for i := 0 to |lines|
      invariant Parsed(records, skipped, duplicates) == Read(reader, lines[..i])
      invariant seen == Keys(reader, records)
    {
      assert lines[..i+1][..i] == lines[..i];
      var trimmed := TrimSpace(lines[i]);
      if trimmed == "" || HasPrefix(trimmed, "#") {
        skipped := skipped + 1;
        continue;
      }
      var scheme := SchemeOf(trimmed);
      if scheme.None? {
        skipped := skipped + 1;
        continue;
      }
      var record := reader.parse(scheme.value, trimmed);
      if record.None? || record.value.host == "" || record.value.port <= 0 || record.value.port > 65535 {
        skipped := skipped + 1;
        continue;
      }
      if record.value.host in PLACEHOLDERS {
        skipped := skipped + 1;
        continue;
      }
      var key := reader.key(record.value);
      if key in seen {
        duplicates := duplicates + 1;
        continue;
      }
      KeysSnoc(reader, records, record.value);
      seen := seen + {key};
      records := records + [record.value];
    }
    assert lines[..|lines|] == lines;
    result := Parsed(records, skipped, duplicates);
  }

  /** No two records share a key, and each record is the candidate of some line. */
  lemma {:induction false} ReadIsUnique(reader: Reader, lines: seq<string>)
    ensures var rs := Read(reader, lines).records;
            && (forall i, j :: 0 <= i < j < |rs| ==> reader.key(rs[i]) != reader.key(rs[j]))
            && (forall r :: r in rs ==> exists n :: 0 <= n < |lines| && Candidate(reader, lines[n]) == Some(r))
  {
    if lines != [] {
      var p := lines[..|lines|-1];
      ReadIsUnique(reader, p);
      var before, rs := Read(reader, p).records, Read(reader, lines).records;
      forall r | r in rs ensures exists n :: 0 <= n < |lines| && Candidate(reader, lines[n]) == Some(r) {
        if r in before {
          var n :| 0 <= n < |p| && Candidate(reader, p[n]) == Some(r);
          assert Candidate(reader, lines[n]) == Some(r);
        } else {
          assert Candidate(reader, lines[|lines|-1]) == Some(r);
        }
      }
    }
  }

  /** Every candidate key is kept once. */
  lemma {:induction false} ReadKeepsKeys(reader: Reader, lines: seq<string>, n: nat)
    requires n < |lines| && Candidate(reader, lines[n]).Some?
    ensures reader.key(Candidate(reader, lines[n]).value) in Keys(reader, Read(reader, lines).records)
  {
    var p := lines[..|lines|-1];
    if n < |p| { ReadKeepsKeys(reader, p, n); }
    match Candidate(reader, lines[|lines|-1])
    case None =>
    case Some(r) => KeysSnoc(reader, Read(reader, p).records, r);
  }

  /** A trimmed line is a link of this kind. */
  predicate IsLink(t: string, scheme: Scheme) {
    match scheme
    case Vless => "vless://" <= t
    case VMess => "vmess://" <= t
    case Trojan => "trojan://" <= t
    case Shadowsocks => "ss://" <= t
    case Hysteria2 => "hysteria2://" <= t || "hy2://" <= t
  }

  lemma SchemeIs(t: string, scheme: Scheme)
    ensures SchemeOf(t) == Some(scheme) <==> IsLink(t, scheme)
  {
    assert "vless://" <= t ==> t[0] == 'v' && t[1] == 'l';
    assert "vmess://" <= t ==> t[0] == 'v' && t[1] == 'm';
    assert "trojan://" <= t ==> t[0] == 't';
    assert "ss://" <= t ==> t[0] == 's';
    assert IsLink(t, Hysteria2) ==> t[0] == 'h';
  }

  /** The host and the port of a record can be dialled. */
  predicate Dialled(r: Record) {
    && r.host != "" && 1 <= r.port <= 65535
    && r.host != "example.com" && r.host != "example.org" && r.host != "localhost"
    && r.host != "0.0.0.0" && r.host != "127.0.0.1" && r.host != "::1"
  }

  lemma CommentIs(t: string)
    ensures HasPrefix(t, "#") <==> t != "" && t[0] == '#'
  {}

  lemma DialledIs(r: Record)
    ensures Dialled(r) <==> !(r.host == "" || r.port <= 0 || r.port > 65535 || r.host in PLACEHOLDERS)
  {}

  /** Which lines become records: those that, trimmed, are not blank, no comment and a link of
      one of the five kinds, which its parser reads, to a host and port that can be dialled. */
  lemma AcceptedIff(reader: Reader, line: string, r: Record)
    ensures Candidate(reader, line) == Some(r) <==>
              var t := TrimSpace(line);
              && t != "" && t[0] != '#' && Dialled(r)
              && exists scheme :: IsLink(t, scheme) && reader.parse(scheme, t) == Some(r)
  {
    var t := TrimSpace(line);
    CommentIs(t);
    DialledIs(r);
    forall scheme ensures SchemeOf(t) == Some(scheme) <==> IsLink(t, scheme) { SchemeIs(t, scheme); }
    if Candidate(reader, line) == Some(r) { assert IsLink(t, SchemeOf(t).value); }
  }

  /** Line `n` gives a record, and no line before it one of the same key. */
  predicate FirstOfKey(reader: Reader, lines: seq<string>, n: nat)
    requires n < |lines|
  {
    && Candidate(reader, lines[n]).Some?
    && forall m :: 0 <= m < n && Candidate(reader, lines[m]).Some? ==>
         reader.key(Candidate(reader, lines[m]).value) != reader.key(Candidate(reader, lines[n]).value)
  }

  /** The records are those of the lines at these positions. */
  ghost predicate ReadFrom(reader: Reader, records: seq<Record>, places: seq<nat>, lines: seq<string>) {
    && |places| == |records|
    && (forall i, j :: 0 <= i < j < |places| ==> places[i] < places[j])
    && (forall i :: 0 <= i < |places| ==> places[i] < |lines| && Candidate(reader, lines[places[i]]) == Some(records[i]))
    && forall n: nat :: n < |lines| ==> (n in places <==> FirstOfKey(reader, lines, n))
  }

  lemma ReadFromSnoc(reader: Reader, records: seq<Record>, places: seq<nat>, p: seq<string>, line: string)
    requires ReadFrom(reader, records, places, p)
    ensures if FirstOfKey(reader, p + [line], |p|) then ReadFrom(reader, records + [Candidate(reader, line).value], places + [|p|], p + [line])
            else ReadFrom(reader, records, places, p + [line])
  {
    var lines := p + [line];
    assert lines[|p|] == line && forall k :: 0 <= k < |p| ==> lines[k] == p[k];
    forall n: nat | n < |p| ensures FirstOfKey(reader, lines, n) <==> FirstOfKey(reader, p, n) {}
    assert |p| !in places;
    forall n ensures n in places + [|p|] <==> n in places || n == |p| {}
  }

  /** A key is known exactly if some line had it. */
  lemma {:induction false} KeysRead(reader: Reader, lines: seq<string>, key: string)
    ensures key in Keys(reader, Read(reader, lines).records) <==>
              exists n :: 0 <= n < |lines| && Candidate(reader, lines[n]).Some? && reader.key(Candidate(reader, lines[n]).value) == key
  {
    ReadIsUnique(reader, lines);
    forall n | 0 <= n < |lines| && Candidate(reader, lines[n]).Some?
      ensures reader.key(Candidate(reader, lines[n]).value) in Keys(reader, Read(reader, lines).records)
    {
      ReadKeepsKeys(reader, lines, n);
    }
  }

  /** What is read: in order, the record of the first line of every key, and no other. */
  lemma {:induction false} ReadKeepsFirst(reader: Reader, lines: seq<string>) returns (places: seq<nat>)
    ensures ReadFrom(reader, Read(reader, lines).records, places, lines)
  {
    places := [];
    if lines != [] {
      var p, line := lines[..|lines|-1], lines[|lines|-1];
      places := ReadKeepsFirst(reader, p);
      ReadFromSnoc(reader, Read(reader, p).records, places, p, line);
      assert lines == p + [line];
      if Candidate(reader, line).Some? { KeysRead(reader, p, reader.key(Candidate(reader, line).value)); }
      assert FirstOfKey(reader, lines, |p|) <==> Read(reader, lines).records != Read(reader, p).records;
      if FirstOfKey(reader, lines, |p|) { places := places + [|p|]; }
    }
  }

  /** The lines that give no record. */
  function Unread(reader: Reader, lines: seq<string>): set<int> { set n | 0 <= n < |lines| && Candidate(reader, lines[n]) == None }

  lemma UnreadSnoc(reader: Reader, p: seq<string>, line: string)
    ensures |Unread(reader, p + [line])| == |Unread(reader, p)| + if Candidate(reader, line) == None then 1 else 0
  {
    assert Unread(reader, p + [line]) == Unread(reader, p) + if Candidate(reader, line) == None then {|p|} else {};
    assert |p| !in Unread(reader, p);
  }

  lemma ReadSkips(reader: Reader, p: seq<string>, line: string)
    ensures Read(reader, p + [line]).skipped == Read(reader, p).skipped + if Candidate(reader, line) == None then 1 else 0
  {
    assert (p + [line])[..|p|] == p;
  }

  /** As many lines are skipped as give no record. */
  lemma {:induction false} SkippedAre(reader: Reader, lines: seq<string>)
    ensures Read(reader, lines).skipped == |Unread(reader, lines)|
  {
    if lines == [] {
      assert Unread(reader, lines) == {};
    } else {
      var p, line := lines[..|lines|-1], lines[|lines|-1];
      SkippedAre(reader, p);
      UnreadSnoc(reader, p, line);
      ReadSkips(reader, p, line);
      assert lines == p + [line];
    }
  }

  /** Every line is skipped, a duplicate, or a record. */
  lemma {:induction false} LinesAddUp(reader: Reader, lines: seq<string>)
    ensures var p := Read(reader, lines); p.skipped + p.duplicates + |p.records| == |lines|
  {
    if lines != [] { LinesAddUp(reader, lines[..|lines|-1]); }
  }
}

/** Which subscription contributed which record (internal/pipeline/attribution.go): the
    two-level deduplication agrees with the flat one. */
module Attribution {
  import opened Common
  import opened Records
  import opened ParseLines
  import SC = SourceCache

  datatype Attr = Attr(
    url: string, fetchOK: bool, stale: bool, viaProxy: bool,
    lines: nat, parsed: nat, skipped: nat, duplicates: nat, unique: nat)

  /** The records that add a key to `known`, in order. */
  function NewOnes(reader: Reader, known: set<string>, records: seq<Record>): (r: seq<Record>)
    ensures |r| <= |records|
  {
    if records == [] then []
    else
      var before := NewOnes(reader, known, records[..|records|-1]);
      var last := records[|records|-1];
      if reader.key(last) in known + Keys(reader, before) then before else before + [last]
  }

  /** What each source parses to by itself. */
  function ListsOf(reader: Reader, sources: seq<SC.Merged>): (r: seq<seq<Record>>)
    ensures |r| == |sources|
  {
    seq(|sources|, i requires 0 <= i < |sources| => Read(reader, sources[i].lines).records)
  }

  /** The unique records of the lists one after the other. */
  function UniqueRecords(reader: Reader, lists: seq<seq<Record>>): seq<Record> {
    if lists == [] then []
    else
      var before := UniqueRecords(reader, lists[..|lists|-1]);
      before + NewOnes(reader, Keys(reader, before), lists[|lists|-1])
  }

  /** What list `i` contributes. */
  function Contribution(reader: Reader, lists: seq<seq<Record>>, i: nat): seq<Record>
    requires i < |lists|
  {
    NewOnes(reader, Keys(reader, UniqueRecords(reader, lists[..i])), lists[i])
  }

  /** The counters of a source of which `own` records are unique. */
  function AttrFor(source: SC.Merged, read: Parsed, own: nat): Attr
    requires own <= |read.records|
  {
    Attr(source.url, source.fetchOK, source.stale, source.viaProxy, |source.lines|, |read.records|, read.skipped,
         read.duplicates + (|read.records| - own), own)
  }

  function AttrOf(reader: Reader, sources: seq<SC.Merged>, i: nat): Attr
    requires i < |sources|
  {
    AttrFor(sources[i], Read(reader, sources[i].lines), |Contribution(reader, ListsOf(reader, sources), i)|)
  }

  function Attrs(reader: Reader, sources: seq<SC.Merged>): (r: seq<Attr>)
    ensures |r| == |sources|
  {
    if sources == [] then [] else Attrs(reader, sources[..|sources|-1]) + [AttrOf(reader, sources, |sources| - 1)]
  }

  function Claimed(reader: Reader, owners: map<string, nat>, own: seq<Record>, i: nat): map<string, nat> {
    if own == [] then owners else Claimed(reader, owners, own[..|own|-1], i)[reader.identity(own[|own|-1]) := i]
  }

  function Owners(reader: Reader, lists: seq<seq<Record>>): map<string, nat> {
    if lists == [] then map[]
    else
      var n := |lists| - 1;
      Claimed(reader, Owners(reader, lists[..n]), Contribution(reader, lists, n), n)
  }

  lemma NewOnesSnoc(reader: Reader, known: set<string>, records: seq<Record>, j: nat)
    requires j < |records|
    ensures var before := NewOnes(reader, known, records[..j]);
            NewOnes(reader, known, records[..j+1])
            == if reader.key(records[j]) in known + Keys(reader, before) then before else before + [records[j]]
  {
    assert records[..j+1][..j] == records[..j];
  }

  lemma ClaimedSnoc(reader: Reader, owners: map<string, nat>, own: seq<Record>, r: Record, i: nat)
    ensures Claimed(reader, owners, own + [r], i) == Claimed(reader, owners, own, i)[reader.identity(r) := i]
  {
    assert (own + [r])[..|own|] == own;
  }

  lemma KeysAppend(reader: Reader, a: seq<Record>, b: seq<Record>)
    ensures Keys(reader, a + b) == Keys(reader, a) + Keys(reader, b)
  {
    assert forall x :: x in a + b <==> x in a || x in b;
  }

  lemma OneMoreList(reader: Reader, lists: seq<seq<Record>>, i: nat)
    requires i < |lists|
    ensures var own := Contribution(reader, lists, i);
            && UniqueRecords(reader, lists[..i+1]) == UniqueRecords(reader, lists[..i]) + own
            && Keys(reader, UniqueRecords(reader, lists[..i+1])) == Keys(reader, UniqueRecords(reader, lists[..i])) + Keys(reader, own)
            && Owners(reader, lists[..i+1]) == Claimed(reader, Owners(reader, lists[..i]), own, i)
  {
    assert lists[..i+1][..i] == lists[..i];
    KeysAppend(reader, UniqueRecords(reader, lists[..i]), Contribution(reader, lists, i));
  }

  /** The keys seen, the owners and the counters after `j` records of source `i`. */
  ghost predicate Tally(reader: Reader, records: seq<Record>, i: nat, seen: set<string>, owners: map<string, nat>,
                        j: nat, seenNow: set<string>, ownersNow: map<string, nat>, duplicates: nat, unique: nat)
    requires j <= |records|
  {
    var own := NewOnes(reader, seen, records[..j]);
    && seenNow == seen + Keys(reader, own)
    && ownersNow == Claimed(reader, owners, own, i)
    && unique == |own| && duplicates == j - |own|
  }

  lemma TallyStep(reader: Reader, records: seq<Record>, i: nat, seen: set<string>, owners: map<string, nat>,
                  j: nat, seenNow: set<string>, ownersNow: map<string, nat>, duplicates: nat, unique: nat)
    requires j < |records| && Tally(reader, records, i, seen, owners, j, seenNow, ownersNow, duplicates, unique)
    ensures var key := reader.key(records[j]);
            if key in seenNow then Tally(reader, records, i, seen, owners, j + 1, seenNow, ownersNow, duplicates + 1, unique)
            else Tally(reader, records, i, seen, owners, j + 1, seenNow + {key}, ownersNow[reader.identity(records[j]) := i], duplicates, unique + 1)
  {
    var own := NewOnes(reader, seen, records[..j]);
    NewOnesSnoc(reader, seen, records, j);
    KeysSnoc(reader, own, records[j]);
    ClaimedSnoc(reader, owners, own, records[j], i);
  }

  /** The inner loop: one source's records against the keys seen so far. */
  method Attribute(reader: Reader, records: seq<Record>, i: nat, seen: set<string>, owners: map<string, nat>)
    returns (seenNow: set<string>, ownersNow: map<string, nat>, duplicates: nat, unique: nat)
    ensures var own := NewOnes(reader, seen, records);
            && seenNow == seen + Keys(reader, own)
            && ownersNow == Claimed(reader, owners, own, i)
            && unique == |own| && duplicates == |records| - |own|
  {
    seenNow, ownersNow, duplicates, unique := seen, owners, 0, 0;
    for j := 0 to |records|
      invariant Tally(reader, records, i, seen, owners, j, seenNow, ownersNow, duplicates, unique)
    {
      TallyStep(reader, records, i, seen, owners, j, seenNow, ownersNow, duplicates, unique);
      var record := records[j];
      var key := reader.key(record);
      if key in seenNow {
        duplicates := duplicates + 1;
        continue;
      }
      seenNow := seenNow + {key};
      ownersNow := ownersNow[reader.identity(record) := i];
      unique := unique + 1;
    }
    assert records[..|records|] == records;
  }

  lemma ListsOfPrefix(reader: Reader, sources: seq<SC.Merged>, n: nat)
    requires n <= |sources|
    ensures ListsOf(reader, sources[..n]) == ListsOf(reader, sources)[..n]
  {}

  lemma AttrOfPrefix(reader: Reader, sources: seq<SC.Merged>, n: nat, i: nat)
    requires i < n <= |sources|
    ensures AttrOf(reader, sources[..n], i) == AttrOf(reader, sources, i)
  {
    var lists := ListsOf(reader, sources);
    ListsOfPrefix(reader, sources, n);
    assert lists[..n][..i] == lists[..i];
  }

  /** The body of the outer loop. */
  method AttributeOne(reader: Reader, source: SC.Merged, i: nat, seen: set<string>, owners: map<string, nat>)
    returns (attr: Attr, seenNow: set<string>, ownersNow: map<string, nat>)
    ensures var own := NewOnes(reader, seen, Read(reader, source.lines).records);
            && attr == AttrFor(source, Read(reader, source.lines), |own|)
            && seenNow == seen + Keys(reader, own)
            && ownersNow == Claimed(reader, owners, own, i)
  {
    var result := ParseAllLines(reader, source.lines);
    var duplicates, unique;
    seenNow, ownersNow, duplicates, unique := Attribute(reader, result.records, i, seen, owners);
    attr := Attr(source.url, source.fetchOK, source.stale, source.viaProxy, |source.lines|,
                 |result.records|, result.skipped, result.duplicates + duplicates, unique);
  }

  lemma AttrsStep(reader: Reader, sources: seq<SC.Merged>, i: nat)
    requires i < |sources|
    ensures Attrs(reader, sources[..i+1]) == Attrs(reader, sources[..i]) + [AttrOf(reader, sources, i)]
  {
    AttrOfPrefix(reader, sources, i + 1, i);
    assert sources[..i+1][..i] == sources[..i];
  }

  method AttributeSources(reader: Reader, merged: seq<SC.Merged>) returns (attrs: seq<Attr>, owners: map<string, nat>)
    ensures attrs == Attrs(reader, merged)
    ensures owners == Owners(reader, ListsOf(reader, merged))
  {
    attrs, owners := [], map[];
    var seen: set<string> := {};
    ghost var lists := ListsOf(reader, merged);
    for i := 0 to |merged|
      invariant attrs == Attrs(reader, merged[..i])
      invariant owners == Owners(reader, lists[..i])
      invariant seen == Keys(reader, UniqueRecords(reader, lists[..i]))
    {
      OneMoreList(reader, lists, i);
      AttrsStep(reader, merged, i);
      var attr;
      attr, seen, owners := AttributeOne(reader, merged[i], i, seen, owners);
      attrs := attrs + [attr];
    }
    assert lists[..|merged|] == lists && merged[..|merged|] == merged;
  }

  // ---------------------------------------------------------------- agreement with the flat form

  lemma {:induction false} NewOnesKeys(reader: Reader, known: set<string>, records: seq<Record>)
    ensures known + Keys(reader, NewOnes(reader, known, records)) == known + Keys(reader, records)
    ensures Keys(reader, NewOnes(reader, known, records)) !! known
  {
    if records != [] {
      var p, last := records[..|records|-1], records[|records|-1];
      NewOnesKeys(reader, known, p);
      KeysSnoc(reader, p, last);
      KeysSnoc(reader, NewOnes(reader, known, p), last);
      assert records == p + [last];
    }
  }

  /** Reading on after `a` is reading `b` by itself and dropping what `a` already had. */
  lemma {:induction false} ReadAppend(reader: Reader, a: seq<string>, b: seq<string>)
    ensures var pa, pb, all := Read(reader, a), Read(reader, b), Read(reader, a + b);
            var own := NewOnes(reader, Keys(reader, pa.records), pb.records);
            && all.records == pa.records + own
            && all.skipped == pa.skipped + pb.skipped
            && all.duplicates == pa.duplicates + pb.duplicates + (|pb.records| - |own|)
  {
    var pa := Read(reader, a);
    if b == [] {
      assert a + b == a;
    } else {
      var b', line := b[..|b|-1], b[|b|-1];
      assert (a + b)[..|a + b|-1] == a + b';
      ReadAppend(reader, a, b');
      var known, pb := Keys(reader, pa.records), Read(reader, b');
      var own := NewOnes(reader, known, pb.records);
      NewOnesKeys(reader, known, pb.records);
      KeysAppend(reader, pa.records, own);
      match Candidate(reader, line)
      case None =>
      case Some(r) =>
        if reader.key(r) !in Keys(reader, pb.records) {
          assert (pb.records + [r])[..|pb.records|] == pb.records;
        }
    }
  }

  function SumSkipped(attrs: seq<Attr>): nat { if attrs == [] then 0 else SumSkipped(attrs[..|attrs|-1]) + attrs[|attrs|-1].skipped }

  function SumDuplicates(attrs: seq<Attr>): nat { if attrs == [] then 0 else SumDuplicates(attrs[..|attrs|-1]) + attrs[|attrs|-1].duplicates }

  function SumUnique(attrs: seq<Attr>): nat { if attrs == [] then 0 else SumUnique(attrs[..|attrs|-1]) + attrs[|attrs|-1].unique }

  /** The flat pass over the first lines of all sources agrees with these lists and counters. */
  ghost predicate Agrees(flat: Parsed, unique: seq<Record>, attrs: seq<Attr>) {
    && unique == flat.records
    && SumSkipped(attrs) == flat.skipped
    && SumDuplicates(attrs) == flat.duplicates
    && SumUnique(attrs) == |flat.records|
  }

  lemma AgreesSnoc(reader: Reader, a: seq<string>, b: seq<string>, unique: seq<Record>, attrs: seq<Attr>, attr: Attr, source: SC.Merged)
    requires Agrees(Read(reader, a), unique, attrs)
    requires attr == AttrFor(source, Read(reader, b), |NewOnes(reader, Keys(reader, unique), Read(reader, b).records)|)
    ensures Agrees(Read(reader, a + b), unique + NewOnes(reader, Keys(reader, unique), Read(reader, b).records), attrs + [attr])
  {
    ReadAppend(reader, a, b);
    assert (attrs + [attr])[..|attrs|] == attrs;
  }

  /** The counters of a source do not depend on the sources after it. */
  lemma {:induction false} AttrsAt(reader: Reader, sources: seq<SC.Merged>, n: nat, i: nat)
    requires i < n <= |sources|
    ensures Attrs(reader, sources[..n])[i] == AttrOf(reader, sources, i)
  {
    AttrsStep(reader, sources, n - 1);
    if i < n - 1 { AttrsAt(reader, sources, n - 1, i); }
  }

  /** Deduplicating per source and then across sources gives the same records in the same
      order as one pass over all lines, and the counters add up to those of that pass. */
  lemma {:induction false} TwoLevelDedupIsFlat(reader: Reader, sources: seq<SC.Merged>)
    ensures Agrees(Read(reader, SC.Concat(sources)), UniqueRecords(reader, ListsOf(reader, sources)), Attrs(reader, sources))
  {
    if sources != [] {
      var n := |sources| - 1;
      var lists := ListsOf(reader, sources);
      TwoLevelDedupIsFlat(reader, sources[..n]);
      ListsOfPrefix(reader, sources, n);
      OneMoreList(reader, lists, n);
      assert lists[..n+1] == lists;
      AgreesSnoc(reader, SC.Concat(sources[..n]), sources[n].lines, UniqueRecords(reader, lists[..n]),
                 Attrs(reader, sources[..n]), AttrOf(reader, sources, n), sources[n]);
    }
  }

  /** What the counters of a source say: how it was fetched, and that every line of it is
      skipped, a duplicate, or unique. */
  lemma SourceAddsUp(reader: Reader, sources: seq<SC.Merged>, i: nat)
    requires i < |sources|
    ensures var a := AttrOf(reader, sources, i); 
            && a.lines == |sources[i].lines| == a.skipped + a.duplicates + a.unique && a.unique <= a.parsed
            && a.url == sources[i].url && a.fetchOK == sources[i].fetchOK && a.stale == sources[i].stale && a.viaProxy == sources[i].viaProxy
            && a.parsed == |Read(reader, sources[i].lines).records| && a.skipped == Read(reader, sources[i].lines).skipped
  {
    LinesAddUp(reader, sources[i].lines);
  }

  // ---------------------------------------------------------------- owners

  function Ids(reader: Reader, records: seq<Record>): set<string> {
    set r | r in records :: reader.identity(r)
  }

  /** List `i` contributed a unique record of this identity. */
  predicate Contributes(reader: Reader, lists: seq<seq<Record>>, i: nat, id: string)
    requires i < |lists|
  {
    id in Ids(reader, Contribution(reader, lists, i))
  }

  lemma {:induction false} ClaimedIs(reader: Reader, owners: map<string, nat>, own: seq<Record>, i: nat, id: string)
    ensures var after := Claimed(reader, owners, own, i);
            if id in Ids(reader, own) then id in after && after[id] == i
            else (id in after <==> id in owners) && (id in owners ==> after[id] == owners[id])
  {
    if own != [] {
      var p, last := own[..|own|-1], own[|own|-1];
      ClaimedIs(reader, owners, p, i, id);
      assert forall r :: r in own <==> r in p || r == last;
    }
  }

  /** Which lists contribute a unique record of this identity. */
  function Contributors(reader: Reader, lists: seq<seq<Record>>, id: string): (r: seq<bool>)
    ensures |r| == |lists|
  {
    seq(|lists|, i requires 0 <= i < |lists| => Contributes(reader, lists, i, id))
  }

  /** The owner on record is the last contributor, if any. */
  ghost predicate OwnedByLast(owners: map<string, nat>, id: string, contributes: seq<bool>) {
    if id in owners then
      owners[id] < |contributes| && contributes[owners[id]] && forall j :: owners[id] < j < |contributes| ==> !contributes[j]
    else forall j :: 0 <= j < |contributes| ==> !contributes[j]
  }

  lemma ContributorsInit(reader: Reader, lists: seq<seq<Record>>, id: string)
    requires lists != []
    ensures var n := |lists| - 1;
            Contributors(reader, lists, id) == Contributors(reader, lists[..n], id) + [Contributes(reader, lists, n, id)]
  {
    var n := |lists| - 1;
    forall i | 0 <= i < n ensures Contributes(reader, lists[..n], i, id) <==> Contributes(reader, lists, i, id) {
      assert lists[..n][..i] == lists[..i];
    }
  }

  /** In general the owner of an identity is the last source that contributed a unique
      record of it. */
  lemma {:induction false} OwnerIsLastContributor(reader: Reader, lists: seq<seq<Record>>, id: string)
    ensures OwnedByLast(Owners(reader, lists), id, Contributors(reader, lists, id))
  {
    if lists != [] {
      var n := |lists| - 1;
      OwnerIsLastContributor(reader, lists[..n], id);
      ContributorsInit(reader, lists, id);
      ClaimedIs(reader, Owners(reader, lists[..n]), Contribution(reader, lists, n), n, id);
    }
  }

  /** On the records at hand, the key and the identity tell the same records apart. */
  ghost predicate KeysAreIdentities(reader: Reader, lists: seq<seq<Record>>) {
    forall a: Record, b: Record :: Occurs(lists, a) && Occurs(lists, b) ==>
      (reader.identity(a) == reader.identity(b) <==> reader.key(a) == reader.key(b))
  }

  /** The key tells at least what the identity tells: it is made of the same fields, with the
      host as it stands. */
  ghost predicate KeysNameIdentities(reader: Reader, lists: seq<seq<Record>>) {
    forall a: Record, b: Record :: Occurs(lists, a) && Occurs(lists, b) && reader.key(a) == reader.key(b) ==>
      reader.identity(a) == reader.identity(b)
  }

  ghost predicate Occurs(lists: seq<seq<Record>>, r: Record) {
    exists i :: 0 <= i < |lists| && r in lists[i]
  }

  lemma {:induction false} NewOnesListed(reader: Reader, known: set<string>, records: seq<Record>)
    ensures forall r :: r in NewOnes(reader, known, records) ==> r in records
  {
    if records != [] { NewOnesListed(reader, known, records[..|records|-1]); }
  }

  lemma {:induction false} UniqueKeys(reader: Reader, lists: seq<seq<Record>>, key: string)
    ensures key in Keys(reader, UniqueRecords(reader, lists)) <==> exists i :: 0 <= i < |lists| && key in Keys(reader, lists[i])
  {
    if lists != [] {
      var n := |lists| - 1;
      UniqueKeys(reader, lists[..n], key);
      OneMoreList(reader, lists, n);
      assert lists[..n+1] == lists;
      NewOnesKeys(reader, Keys(reader, UniqueRecords(reader, lists[..n])), lists[n]);
      assert forall i :: 0 <= i < n ==> lists[..n][i] == lists[i];
    }
  }

  /** List `i` is the first that lists a record of this identity. */
  predicate FirstLists(reader: Reader, lists: seq<seq<Record>>, id: string, i: nat) {
    && i < |lists| && id in Ids(reader, lists[i])
    && forall j :: 0 <= j < i ==> id !in Ids(reader, lists[j])
  }

  /** No later list has a record of this identity under a key that list `i` does not list. */
  predicate NoOtherKey(reader: Reader, lists: seq<seq<Record>>, id: string, i: nat)
    requires i < |lists|
  {
    forall j :: i < j < |lists| ==> forall x :: x in lists[j] && reader.identity(x) == id ==> reader.key(x) in Keys(reader, lists[i])
  }

  lemma FirstContributes(reader: Reader, lists: seq<seq<Record>>, id: string, i: nat)
    requires KeysNameIdentities(reader, lists) && FirstLists(reader, lists, id, i)
    ensures Contributes(reader, lists, i, id)
  {
    var known := Keys(reader, UniqueRecords(reader, lists[..i]));
    var r :| r in lists[i] && reader.identity(r) == id;
    var key := reader.key(r);
    assert Occurs(lists, r);
    FirstKeyIsNew(reader, lists, i, r);
    NewOnesKeys(reader, known, lists[i]);
    NewOnesListed(reader, known, lists[i]);
    assert key in Keys(reader, lists[i]);
    var x :| x in NewOnes(reader, known, lists[i]) && reader.key(x) == key;
    assert Occurs(lists, x);
  }

  lemma FirstKeyIsNew(reader: Reader, lists: seq<seq<Record>>, i: nat, r: Record)
    requires KeysNameIdentities(reader, lists) && i < |lists| && Occurs(lists, r)
    requires forall j :: 0 <= j < i ==> reader.identity(r) !in Ids(reader, lists[j])
    ensures reader.key(r) !in Keys(reader, UniqueRecords(reader, lists[..i]))
  {
    UniqueKeys(reader, lists[..i], reader.key(r));
    forall j | 0 <= j < i ensures reader.key(r) !in Keys(reader, lists[..i][j]) {
      forall y | y in lists[j] ensures reader.key(y) != reader.key(r) {
        assert Occurs(lists, y) && reader.identity(y) in Ids(reader, lists[j]);
      }
    }
  }

  /** A later list whose records of the identity have known keys contributes none of it. */
  lemma LaterDoesNot(reader: Reader, lists: seq<seq<Record>>, id: string, i: nat, j: nat)
    requires i < j < |lists| && NoOtherKey(reader, lists, id, i)
    ensures !Contributes(reader, lists, j, id)
  {
    var known, own := Keys(reader, UniqueRecords(reader, lists[..j])), Contribution(reader, lists, j);
    NewOnesKeys(reader, known, lists[j]);
    NewOnesListed(reader, known, lists[j]);
    forall x | x in own ensures reader.identity(x) != id {
      assert reader.key(x) in Keys(reader, own);
      UniqueKeys(reader, lists[..j], reader.key(x));
      assert lists[..j][i] == lists[i];
    }
  }

  /** A key that a list does not contribute anew stands in an earlier list. */
  lemma KeyStandsEarlier(reader: Reader, lists: seq<seq<Record>>, j: nat, x: Record) returns (k: nat, y: Record)
    requires KeysNameIdentities(reader, lists) && j < |lists| && x in lists[j] && !Contributes(reader, lists, j, reader.identity(x))
    ensures k < j && y in lists[k] && reader.key(y) == reader.key(x) && reader.identity(y) == reader.identity(x)
  {
    var known, own := Keys(reader, UniqueRecords(reader, lists[..j])), Contribution(reader, lists, j);
    var key := reader.key(x);
    NewOnesKeys(reader, known, lists[j]);
    NewOnesListed(reader, known, lists[j]);
    assert key in Keys(reader, lists[j]) && Occurs(lists, x);
    forall z | z in own ensures reader.key(z) != key {
      assert Occurs(lists, z) && reader.identity(z) in Ids(reader, own);
    }
    UniqueKeys(reader, lists[..j], key);
    k :| 0 <= k < j && key in Keys(reader, lists[..j][k]);
    y :| y in lists[k] && reader.key(y) == key;
    assert Occurs(lists, y);
  }

  /** If no later list contributes the identity, its keys all stand in list `i`. */
  lemma {:induction false} KeyTracesBack(reader: Reader, lists: seq<seq<Record>>, id: string, i: nat, j: nat, x: Record)
    requires KeysNameIdentities(reader, lists) && FirstLists(reader, lists, id, i) && i < j < |lists|
    requires forall k :: i < k < |lists| ==> !Contributes(reader, lists, k, id)
    requires x in lists[j] && reader.identity(x) == id
    ensures reader.key(x) in Keys(reader, lists[i])
    decreases j
  {
    var k, y := KeyStandsEarlier(reader, lists, j, x);
    assert id in Ids(reader, lists[k]);
    if k > i { KeyTracesBack(reader, lists, id, i, k, y); }
  }

  /** The owner of an identity is the first source that lists a record of it exactly when no
      later source lists one under a key that the first does not have. */
  lemma OwnerIsFirstIff(reader: Reader, lists: seq<seq<Record>>, id: string, i: nat)
    requires KeysNameIdentities(reader, lists) && FirstLists(reader, lists, id, i)
    ensures id in Owners(reader, lists)
    ensures Owners(reader, lists)[id] == i <==> NoOtherKey(reader, lists, id, i)
  {
    OwnerIsLastContributor(reader, lists, id);
    FirstContributes(reader, lists, id, i);
    var contributes := Contributors(reader, lists, id);
    assert contributes[i];
    if NoOtherKey(reader, lists, id, i) {
      forall j | i < j < |lists| ensures !contributes[j] { LaterDoesNot(reader, lists, id, i, j); }
    }
    if Owners(reader, lists)[id] == i {
      forall k | i < k < |lists| ensures !Contributes(reader, lists, k, id) { assert !contributes[k]; }
      forall j, x | i < j < |lists| && x in lists[j] && reader.identity(x) == id ensures reader.key(x) in Keys(reader, lists[i]) {
        KeyTracesBack(reader, lists, id, i, j, x);
      }
    }
  }

  /** Where keys and identities tell the same records apart, the owner of an identity is the
      first source that lists a record of it. */
  lemma OwnerIsFirstListing(reader: Reader, lists: seq<seq<Record>>, id: string, i: nat)
    requires KeysAreIdentities(reader, lists) && FirstLists(reader, lists, id, i)
    ensures id in Owners(reader, lists) && Owners(reader, lists)[id] == i
  {
    OwnerIsFirstIff(reader, lists, id, i);
    var r :| r in lists[i] && reader.identity(r) == id;
    forall j, x | i < j < |lists| && x in lists[j] && reader.identity(x) == id ensures reader.key(x) in Keys(reader, lists[i]) {
      assert Occurs(lists, r) && Occurs(lists, x);
    }
  }

  /** Two sources list one proxy, with its host in different cases: the keys differ, the
      identities agree, and the owner is the second source. */
  lemma SecondSourceTakesOver(reader: Reader, first: Record, second: Record)
    requires reader.key(first) != reader.key(second) && reader.identity(first) == reader.identity(second)
    ensures var lists, id := [[first], [second]], reader.identity(first);
            FirstLists(reader, lists, id, 0) && id in Owners(reader, lists) && Owners(reader, lists)[id] == 1
  {
    var lists, id := [[first], [second]], reader.identity(first);
    assert first in lists[0];
    assert KeysNameIdentities(reader, lists) by {
      forall x | Occurs(lists, x) ensures x == first || x == second {
        var k :| 0 <= k < |lists| && x in lists[k];
      }
    }
    OwnerIsFirstIff(reader, lists, id, 0);
    OwnerIsLastContributor(reader, lists, id);
    assert second in lists[1];
    assert !NoOtherKey(reader, lists, id, 0);
  }
}
