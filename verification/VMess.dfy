/** VMess share links: `parseVMess` (internal/parse/parse.go) and `reconstructVMess`
    (internal/format/format.go) on the fields of the JSON object they carry. */
module VMess {
  import opened Common
  import Base64
  import T = Text

  /** The parameters that both directions copy under one name. */
  datatype Field = Sni | Path | Host | Flow | Scy | Alpn | Fp | Pbk | Sid | Spx | Mode

  /** The query parameters that VMess records use. */
  datatype Param =
    | Copied(field: Field) | Transport | Security | HeaderType | Extra
    | Insecure | AllowInsecureCamel | AllowInsecureSnake

  type Params = map<Param, string>

  /** What a VMess link says; the record of it adds the protocol and the line. */
  datatype Link = Link(host: string, port: int, id: string, params: Params, fragment: string)

  /** The members of the JSON object; the reader ignores the unlisted ones. */
  datatype Member =
    | Same(field: Field) | V | Add | PortNumber | Id | Ps | Net | Kind | Tls | ExtraJson | AllowInsecure | HeaderKind
    | Unlisted(name: string)

  /** The value of a member; `Nested` keeps the text of an object or array. */
  datatype Value = Text(text: string) | Number(number: real) | Flag(flag: bool) | Nested(json: string) | Null

  type Object = map<Member, Value>

  /** Code that is not modelled: the JSON reader and writer, the text of one value, and
      the canonical form of an xHTTP `extra` object. */
  datatype Env = Env(
    read: string -> Option<Object>,
    write: Object -> string,
    text: Value -> string,
    normalize: string -> Option<string>)
  {
    /** A canonical `extra` is its own canonical form, and it is an object. */
    ghost predicate Canonical() {
      && (forall x :: normalize(x).Some? ==>
            var y := normalize(x).value; normalize(y) == Some(y) && y != "" && y != "null")
      && forall t :: text(Nested(t)) == t
    }

    /** The writer writes bytes. */
    ghost predicate WritesBytes() { forall o :: Base64.IsBytes(write(o)) }
  }

  const FIELDS: seq<Field> := [Sni, Path, Host, Flow, Scy, Alpn, Fp, Pbk, Sid, Spx, Mode]

  lemma AllFields(f: Field)
    ensures f in FIELDS
  {
    assert FIELDS[0] == Sni && FIELDS[1] == Path && FIELDS[2] == Host && FIELDS[3] == Flow && FIELDS[4] == Scy && FIELDS[5] == Alpn
           && FIELDS[6] == Fp && FIELDS[7] == Pbk && FIELDS[8] == Sid && FIELDS[9] == Spx && FIELDS[10] == Mode;
  }

  /** The members that the reader wants to be strings. */
  predicate IsString(k: Member) { k.Same? || k.V? || k.Add? || k.Id? || k.Ps? || k.Net? || k.Kind? || k.Tls? }

  /** Go's `m[k]` on a map of strings. */
  function Get(m: Params, k: Param): string { if k in m then m[k] else "" }

  function Str(o: Object, k: Member): string { if k in o && o[k].Text? then o[k].text else "" }

  /** The JSON reader accepts the object for the structure: strings are strings. */
  predicate WellTyped(o: Object) {
    && (forall k :: IsString(k) && k in o ==> o[k].Text? || o[k].Null?)
    && (AllowInsecure in o ==> o[AllowInsecure].Flag? || o[AllowInsecure].Null?)
  }

  // ---------------------------------------------------------------- reading

  function With(m: Params, k: Param, v: string): Params { if v == "" then m else m[k := v] }

  function Copy(m: Params, o: Object, names: seq<Field>): Params {
    if names == [] then m else With(Copy(m, o, names[..|names|-1]), Copied(names[|names|-1]), Str(o, Same(names[|names|-1])))
  }

  /** Go's conversion of a float to an int, toward zero. */
  function Truncated(x: real): int { if x >= 0.0 then x.Floor else -(-x).Floor }

  function Port(o: Object): int {
    if PortNumber !in o then 0
    else match o[PortNumber]
      case Number(n) => Truncated(n)
      case Text(t) => T.AtoiValue(t)
      case _ => 0
  }

  predicate HasExtra(env: Env, o: Object) { ExtraJson in o && env.text(o[ExtraJson]) != "" && env.text(o[ExtraJson]) != "null" }

  function Secured(tls: string): string { if tls == "tls" || tls == "reality" then tls else "" }

  /** Transport, security and the copied parameters. */
  function MainParams(o: Object): Params {
    Copy(With(map[Transport := NetOf(o)], Security, Secured(Str(o, Tls))), o, FIELDS)
  }

  function NetOf(o: Object): string { if Str(o, Net) != "" then Str(o, Net) else "tcp" }

  /** The parameters that do not come from `extra`. */
  function PlainParams(o: Object): Params {
    var m := With(MainParams(o), HeaderType, if Str(o, Kind) != "none" then Str(o, Kind) else "");
    if AllowInsecure in o && o[AllowInsecure] == Flag(true) then m[Insecure := "1"] else m
  }

  /** The parameters before normalisation. */
  function RawParams(env: Env, o: Object): Option<Params> {
    if HasExtra(env, o) then
      match env.normalize(env.text(o[ExtraJson]))
      case None => None
      case Some(extra) => Some(PlainParams(o)[Extra := extra])
    else Some(PlainParams(o))
  }

  /** `normalizeInsecure`. */
  function Insecured(m: Params): Params {
    var v := if Get(m, AllowInsecureCamel) != "" then Get(m, AllowInsecureCamel)
             else if Get(m, Insecure) != "" then Get(m, Insecure)
             else Get(m, AllowInsecureSnake);
    (if v != "" then m[Insecure := "1"] else m) - {AllowInsecureCamel, AllowInsecureSnake}
  }

  /** `normalizeXHTTP`; None where it reports failure. */
  function Transported(env: Env, m: Params): Option<Params> {
    if Get(m, Transport) != "xhttp" && Get(m, Transport) != "splithttp" then Some(m)
    else
      var m := m[Transport := "xhttp"];
      if Get(m, Extra) == "" then Some(m)
      else match env.normalize(Get(m, Extra))
        case None => None
        case Some(extra) => Some(m[Extra := extra])
  }

  function ParsedObject(env: Env, o: Object): Option<Link> {
    if !WellTyped(o) || (Str(o, V) != "" && Str(o, V) != "2") then None
    else match RawParams(env, o)
      case None => None
      case Some(raw) =>
        match Transported(env, Insecured(raw))
        case None => None
        case Some(params) => Some(Link(Str(o, Add), Port(o), Str(o, Id), params, Str(o, Ps)))
  }

  function Translated(c: char): char { if c == '-' then '+' else if c == '_' then '/' else c }

  /** `strings.ReplaceAll` of '-' by '+' and '_' by '/'. */
  function Standard(s: string): (r: string)
    ensures |r| == |s|
  {
    seq(|s|, i requires 0 <= i < |s| => Translated(s[i]))
  }

  /** The object inside a link without its `vmess://`. */
  function Unwrapped(env: Env, encoded: string): Option<Object> {
    match Base64.Decode(Base64.Std, true, Base64.Pad(Standard(encoded)))
    case None => None
    case Some(decoded) => env.read(decoded)
  }

  const SCHEME := "vmess://"

  method NormalizeInsecure(params: Params) returns (m: Params)
    ensures m == Insecured(params)
  {
    m := params;
    var v := Get(m, AllowInsecureCamel);
    if v == "" { v := Get(m, Insecure); }
    if v == "" { v := Get(m, AllowInsecureSnake); }
    if v != "" { m := m[Insecure := "1"]; }
    m := m - {AllowInsecureCamel};
    m := m - {AllowInsecureSnake};
  }

  method NormalizeXHTTP(env: Env, params: Params) returns (r: Option<Params>)
    ensures r == Transported(env, params)
  {
    if Get(params, Transport) != "xhttp" && Get(params, Transport) != "splithttp" { return Some(params); }
    var m := params[Transport := "xhttp"];
    if Get(m, Extra) == "" { return Some(m); }
    var normalized := env.normalize(Get(m, Extra));
    if normalized.None? { return None; }
    return Some(m[Extra := normalized.value]);
  }

  method CopyParams(params: Params, o: Object, names: seq<Field>) returns (m: Params)
    ensures m == Copy(params, o, names)
  {
    m := params;
    for i := 0 to |names|
      invariant m == Copy(params, o, names[..i])
    {
      assert names[..i+1][..i] == names[..i];
      if Str(o, Same(names[i])) != "" { m := m[Copied(names[i]) := Str(o, Same(names[i]))]; }
    }
    assert names[..|names|] == names;
  }

  method ReadParams(env: Env, o: Object) returns (r: Option<Params>)
    ensures r == RawParams(env, o)
  {
    var m: Params := map[];
    if Str(o, Net) != "" { m := m[Transport := Str(o, Net)]; } else { m := m[Transport := "tcp"]; }
    if Str(o, Tls) == "tls" {
      m := m[Security := "tls"];
    } else if Str(o, Tls) == "reality" {
      m := m[Security := "reality"];
    }
    m := CopyParams(m, o, FIELDS);
    if Str(o, Kind) != "" && Str(o, Kind) != "none" { m := m[HeaderType := Str(o, Kind)]; }
    if AllowInsecure in o && o[AllowInsecure] == Flag(true) { m := m[Insecure := "1"]; }
    if HasExtra(env, o) {
      var normalized := env.normalize(env.text(o[ExtraJson]));
      if normalized.None? { return None; }
      m := m[Extra := normalized.value];
    }
    return Some(m);
  }

  method ParseVMess(env: Env, line: string) returns (r: Option<Link>)
    requires SCHEME <= line
    ensures r == match Unwrapped(env, line[|SCHEME|..])
                 case None => None
                 case Some(o) => ParsedObject(env, o)
  {
    var encoded := Base64.PadLoop(Standard(line[|SCHEME|..]));
    var decoded := Base64.Decode(Base64.Std, true, encoded);
    if decoded.None? { return None; }
    var parsed := env.read(decoded.value);
    if parsed.None? { return None; }
    var o := parsed.value;
    if !WellTyped(o) { return None; }
    if Str(o, V) != "" && Str(o, V) != "2" { return None; }
    var port := Port(o);
    var raw := ReadParams(env, o);
    if raw.None? { return None; }
    var params := NormalizeInsecure(raw.value);
    var normalized := NormalizeXHTTP(env, params);
    if normalized.None? { return None; }
    return Some(Link(Str(o, Add), port, Str(o, Id), normalized.value, Str(o, Ps)));
  }

  // ---------------------------------------------------------------- writing

  function Adding(o: Object, params: Params, names: seq<Field>): Object {
    if names == [] then o
    else
      var before, name := Adding(o, params, names[..|names|-1]), names[|names|-1];
      if Get(params, Copied(name)) != "" then before[Same(name) := Text(Get(params, Copied(name)))] else before
  }

  /** The members that are always drafted. */
  function Head(r: Link, fragment: string): Object {
    var p := r.params;
    map[
      V := Text("2"), Ps := Text(fragment), Add := Text(r.host), PortNumber := Number(r.port as real), Id := Text(r.id),
      Net := Text(if Get(p, Transport) == "" then "tcp" else Get(p, Transport)),
      Kind := Text(if Get(p, HeaderType) != "" then Get(p, HeaderType) else if Get(p, Transport) == "" then "tcp" else Get(p, Transport)),
      Tls := Text(if Secured(Get(p, Security)) != "" then "tls" else "")]
  }

  /** The object before its empty strings are removed. */
  function Draft(env: Env, r: Link, fragment: string): Object {
    var p := r.params;
    var o := Adding(Head(r, fragment), p, FIELDS);
    var o := if Get(p, HeaderType) != "" then o[HeaderKind := Text(Get(p, HeaderType))] else o;
    if Get(p, Extra) != "" && env.normalize(Get(p, Extra)).Some?
    then o[ExtraJson := Nested(env.normalize(Get(p, Extra)).value)] else o
  }

  function Cleaned(o: Object): Object {
    map k | k in o && o[k] != Text("") :: o[k]
  }

  function PrintedObject(env: Env, r: Link, fragment: string): Object { Cleaned(Draft(env, r, fragment)) }

  /** `strings.TrimRight(s, "=")`. */
  function TrimPadding(s: string): string {
    if s != "" && s[|s|-1] == '=' then TrimPadding(s[..|s|-1]) else s
  }

  /** A link without its `vmess://`. */
  function Wrapped(env: Env, o: Object): string
    requires Base64.IsBytes(env.write(o))
  {
    TrimPadding(Base64.Pad(Base64.Encode(Base64.Std, env.write(o))))
  }

  method Clean(draft: Object) returns (o: Object)
    ensures o == Cleaned(draft)
  {
    o := draft;
    var left := draft.Keys;
    while left != {}
      invariant left <= draft.Keys
      invariant forall k :: k in o <==> k in draft && (k in left || draft[k] != Text(""))
      invariant forall k :: k in o ==> o[k] == draft[k]
    {
      var k :| k in left;
      if o[k] == Text("") { o := o - {k}; }
      left := left - {k};
    }
  }

  method DraftHead(r: Link, fragment: string) returns (o: Object)
    ensures o == Head(r, fragment)
  {
    var p := r.params;
    o := map[
      V := Text("2"), Ps := Text(fragment), Add := Text(r.host), PortNumber := Number(r.port as real), Id := Text(r.id),
      Net := Text(Get(p, Transport)), Kind := Text(Get(p, Transport)), Tls := Text("")];
    if Get(p, Transport) == "" { o := o[Net := Text("tcp")][Kind := Text("tcp")]; }
    if Get(p, HeaderType) != "" { o := o[Kind := Text(Get(p, HeaderType))]; }
    if Get(p, Security) == "tls" || Get(p, Security) == "reality" { o := o[Tls := Text("tls")]; }
  }

  method AddFields(head: Object, p: Params) returns (o: Object)
    ensures o == Adding(head, p, FIELDS)
  {
    o := head;
    for i := 0 to |FIELDS|
      invariant o == Adding(head, p, FIELDS[..i])
    {
      assert FIELDS[..i+1][..i] == FIELDS[..i];
      if Get(p, Copied(FIELDS[i])) != "" { o := o[Same(FIELDS[i]) := Text(Get(p, Copied(FIELDS[i])))]; }
    }
    assert FIELDS[..|FIELDS|] == FIELDS;
  }

  method ReconstructVMess(env: Env, r: Link, fragment: string) returns (link: string)
    requires env.WritesBytes()
    ensures link == SCHEME + Wrapped(env, PrintedObject(env, r, fragment))
  {
    var p := r.params;
    var o := DraftHead(r, fragment);
    o := AddFields(o, p);
    if Get(p, HeaderType) != "" { o := o[HeaderKind := Text(Get(p, HeaderType))]; }
    if Get(p, Extra) != "" {
      var normalized := env.normalize(Get(p, Extra));
      if normalized.Some? { o := o[ExtraJson := Nested(normalized.value)]; }
    }
    assert o == Draft(env, r, fragment);
    o := Clean(o);
    link := SCHEME + Wrapped(env, o);
  }

  // ---------------------------------------------------------------- what a parse leaves

  /** No empty values. */
  predicate Tidy(m: Params) { forall k :: k in m ==> m[k] != "" }

  lemma TidyEqual(a: Params, b: Params)
    requires Tidy(a) && Tidy(b) && forall k :: Get(a, k) == Get(b, k)
    ensures a == b
  {
    forall k ensures (k in a <==> k in b) && (k in a ==> a[k] == b[k]) { assert Get(a, k) == Get(b, k); }
  }

  lemma {:induction false} CopyGet(m: Params, o: Object, names: seq<Field>, k: Param)
    ensures Get(Copy(m, o, names), k) == if k.Copied? && k.field in names && Str(o, Same(k.field)) != "" then Str(o, Same(k.field)) else Get(m, k)
    ensures Tidy(m) ==> Tidy(Copy(m, o, names))
  {
    if names != [] {
      CopyGet(m, o, names[..|names|-1], k);
      assert k.Copied? ==> (k.field in names <==> k.field in names[..|names|-1] || k.field == names[|names|-1]);
    }
  }

  function Canon(transport: string): string { if transport == "splithttp" then "xhttp" else transport }

  /** The parameter `k` of a parsed object. */
  function View(env: Env, o: Object, k: Param): string {
    match k
    case Copied(f) => Str(o, Same(f))
    case Transport => Canon(NetOf(o))
    case Security => Secured(Str(o, Tls))
    case HeaderType => if Str(o, Kind) != "none" then Str(o, Kind) else ""
    case Insecure => if AllowInsecure in o && o[AllowInsecure] == Flag(true) then "1" else ""
    case Extra =>
      if HasExtra(env, o) && env.normalize(env.text(o[ExtraJson])).Some? then env.normalize(env.text(o[ExtraJson])).value else ""
    case _ => ""
  }

  lemma WithGet(m: Params, k: Param, v: string, j: Param)
    requires Tidy(m)
    ensures Tidy(With(m, k, v)) && Get(With(m, k, v), j) == if j == k && v != "" then v else Get(m, j)
  {}

  lemma MainGet(o: Object, k: Param)
    ensures var m := MainParams(o);
            && Tidy(m)
            && Get(m, k) == match k
                            case Copied(f) => Str(o, Same(f))
                            case Transport => NetOf(o)
                            case Security => Secured(Str(o, Tls))
                            case _ => ""
  {
    var start: Params := map[Transport := NetOf(o)];
    if k.Copied? { AllFields(k.field); }
    WithGet(start, Security, Secured(Str(o, Tls)), k);
    CopyGet(With(start, Security, Secured(Str(o, Tls))), o, FIELDS, k);
  }

  lemma PlainGet(env: Env, o: Object, k: Param)
    requires !k.Extra?
    ensures var m := PlainParams(o);
            && Tidy(m) && Extra !in m
            && Get(m, k) == if k.Transport? then NetOf(o) else View(env, o, k)
  {
    MainGet(o, k);
    MainGet(o, Extra);
    MainGet(o, HeaderType);
  }

  lemma RawGet(env: Env, o: Object, k: Param)
    requires env.Canonical() && RawParams(env, o).Some?
    ensures var m := RawParams(env, o).value;
            && Tidy(m)
            && Get(m, k) == if k.Transport? then NetOf(o) else View(env, o, k)
  {
    PlainGet(env, o, if k.Extra? then Transport else k);
  }

  lemma InsecuredSame(m: Params)
    requires AllowInsecureCamel !in m && AllowInsecureSnake !in m && Get(m, Insecure) in {"", "1"} && Tidy(m)
    ensures Insecured(m) == m
  {}

  lemma TransportedGet(env: Env, m: Params, k: Param)
    requires env.Canonical() && Tidy(m) && (Get(m, Extra) != "" ==> env.normalize(Get(m, Extra)) == Some(Get(m, Extra)))
    ensures Transported(env, m).Some?
    ensures var t := Transported(env, m).value;
            Tidy(t) && Get(t, k) == if k.Transport? then Canon(Get(m, k)) else Get(m, k)
  {}

  /** The raw parameters need no insecure rewriting and no second `extra` rewriting. */
  lemma RawSettled(env: Env, o: Object)
    requires env.Canonical() && RawParams(env, o).Some?
    ensures var m := RawParams(env, o).value;
            && Tidy(m) && Insecured(m) == m
            && (Get(m, Extra) != "" ==> env.normalize(Get(m, Extra)) == Some(Get(m, Extra)))
  {
    var m := RawParams(env, o).value;
    RawGet(env, o, AllowInsecureCamel);
    RawGet(env, o, AllowInsecureSnake);
    RawGet(env, o, Insecure);
    RawGet(env, o, Extra);
    InsecuredSame(m);
  }

  lemma ParsedGet(env: Env, o: Object, k: Param)
    requires env.Canonical() && ParsedObject(env, o).Some?
    ensures var m := ParsedObject(env, o).value.params; Tidy(m) && Get(m, k) == View(env, o, k)
  {
    var raw := RawParams(env, o).value;
    RawSettled(env, o);
    RawGet(env, o, k);
    TransportedGet(env, raw, k);
  }

  /** An object is refused exactly for a string member that is no string, a version other
      than 2, or an `extra` without canonical form. */
  lemma ParsedIff(env: Env, o: Object)
    requires env.Canonical()
    ensures ParsedObject(env, o).Some? <==>
              && WellTyped(o) && Str(o, V) in {"", "2"}
              && (HasExtra(env, o) ==> env.normalize(env.text(o[ExtraJson])).Some?)
  {
    if RawParams(env, o).Some? {
      RawSettled(env, o);
      TransportedGet(env, RawParams(env, o).value, Extra);
    }
  }

  // ---------------------------------------------------------------- what is read

  /** The port: a number is cut toward zero, a decimal text is read, any other text and any
      other value is 0. */
  lemma PortIs(o: Object, n: real, i: int, text: string)
    requires 0 <= i <= T.INT64_MAX
    requires text != "" && !T.IsDigit(text[|text|-1])
    ensures var p := Port(o[PortNumber := Number(n)]) as real;
            if n >= 0.0 then p <= n < p + 1.0 else p - 1.0 < n <= p
    ensures Port(o[PortNumber := Text(T.Itoa(i))]) == i && Port(o[PortNumber := Text("-" + T.Itoa(i))]) == -i
    ensures Port(o[PortNumber := Text(text)]) == 0 && Port(o[PortNumber := Null]) == 0 && Port(o - {PortNumber}) == 0
  {
    T.AtoiOfItoa(i);
    NegativeText(i);
    NoNumber(text);
  }

  lemma NegativeText(i: int)
    requires 0 <= i <= T.INT64_MAX
    ensures T.AtoiValue("-" + T.Itoa(i)) == -i
  {
    T.ValueOfItoa(i);
    assert ("-" + T.Itoa(i))[1..] == T.Itoa(i);
  }

  lemma NoNumber(text: string)
    requires text != "" && !T.IsDigit(text[|text|-1])
    ensures T.AtoiValue(text) == 0
  {
    if |text| > 1 { assert text[1..][|text|-2] == text[|text|-1]; }
  }

  /** The parameter `k` of a parsed link, in terms of the members of the object. */
  lemma ParsedMeans(env: Env, o: Object)
    requires env.Canonical() && ParsedObject(env, o).Some?
    ensures var r := ParsedObject(env, o).value;
            && r.host == Str(o, Add) && r.id == Str(o, Id) && r.fragment == Str(o, Ps) && r.port == Port(o)
            && Get(r.params, Transport) == (match Str(o, Net) case "" => "tcp" case "splithttp" => "xhttp" case net => net)
            && Get(r.params, Security) == (if Str(o, Tls) == "tls" then "tls" else if Str(o, Tls) == "reality" then "reality" else "")
            && Get(r.params, HeaderType) == (if Str(o, Kind) == "none" then "" else Str(o, Kind))
            && Get(r.params, Insecure) == (if AllowInsecure in o && o[AllowInsecure] == Flag(true) then "1" else "")
            && (forall f :: Get(r.params, Copied(f)) == Str(o, Same(f)))
            && (if ExtraJson in o && env.text(o[ExtraJson]) !in {"", "null"} then env.normalize(env.text(o[ExtraJson])) == Some(Get(r.params, Extra))
                else Get(r.params, Extra) == "")
            && AllowInsecureCamel !in r.params && AllowInsecureSnake !in r.params
  {
    ParsedIff(env, o);
    ParsedGet(env, o, Extra);
    ParsedGet(env, o, Transport);
    ParsedGet(env, o, Security);
    ParsedGet(env, o, HeaderType);
    ParsedGet(env, o, Insecure);
    ParsedGet(env, o, AllowInsecureCamel);
    ParsedGet(env, o, AllowInsecureSnake);
    forall f ensures Get(ParsedObject(env, o).value.params, Copied(f)) == Str(o, Same(f)) { ParsedGet(env, o, Copied(f)); }
  }

  /** `normalizeInsecure` leaves one spelling: "1" if any of the three had a value, and
      touches no other parameter. */
  lemma InsecuredMeans(m: Params, k: Param)
    ensures var n := Insecured(m);
            && AllowInsecureCamel !in n && AllowInsecureSnake !in n
            && (Get(n, Insecure) == if Get(m, Insecure) != "" || Get(m, AllowInsecureCamel) != "" || Get(m, AllowInsecureSnake) != "" then "1" else "")
            && (k !in {Insecure, AllowInsecureCamel, AllowInsecureSnake} ==> (k in n <==> k in m) && (k in m ==> n[k] == m[k]))
  {}

  /** What every parsed record looks like. */
  ghost predicate Shaped(env: Env, m: Params) {
    && Tidy(m)
    && AllowInsecureCamel !in m && AllowInsecureSnake !in m
    && Get(m, Transport) !in {"", "splithttp"}
    && Get(m, Security) in {"", "tls", "reality"}
    && Get(m, HeaderType) != "none"
    && Get(m, Insecure) in {"", "1"}
    && (Get(m, Extra) != "" ==> env.normalize(Get(m, Extra)) == Some(Get(m, Extra)))
  }

  lemma ViewIsShaped(env: Env, o: Object, m: Params)
    requires env.Canonical() && Tidy(m) && forall k :: Get(m, k) == View(env, o, k)
    ensures Shaped(env, m)
  {
    assert Get(m, AllowInsecureCamel) == "" && Get(m, AllowInsecureSnake) == "";
    assert Get(m, Transport) == Canon(NetOf(o)) && Get(m, Security) == Secured(Str(o, Tls));
    assert Get(m, HeaderType) == View(env, o, HeaderType) && Get(m, Insecure) == View(env, o, Insecure);
    assert Get(m, Extra) == View(env, o, Extra);
  }

  lemma ParsedShaped(env: Env, o: Object)
    requires env.Canonical() && ParsedObject(env, o).Some?
    ensures Shaped(env, ParsedObject(env, o).value.params)
  {
    var m := ParsedObject(env, o).value.params;
    forall k ensures Get(m, k) == View(env, o, k) { ParsedGet(env, o, k); }
    ParsedGet(env, o, Transport);
    ViewIsShaped(env, o, m);
  }

  // ---------------------------------------------------------------- what a print leaves

  lemma {:induction false} AddingIs(o: Object, params: Params, names: seq<Field>, k: Member)
    ensures var a := Adding(o, params, names);
            if k.Same? && k.field in names && Get(params, Copied(k.field)) != "" then k in a && a[k] == Text(Get(params, Copied(k.field)))
            else (k in a <==> k in o) && (k in o ==> a[k] == o[k])
  {
    if names != [] {
      AddingIs(o, params, names[..|names|-1], k);
      assert k.Same? ==> (k.field in names <==> k.field in names[..|names|-1] || k.field == names[|names|-1]);
    }
  }

  /** The `type` member: the header type, or else the transport. */
  function PrintedKind(p: Params): string {
    if Get(p, HeaderType) != "" then Get(p, HeaderType) else PrintedNet(p)
  }

  function PrintedNet(p: Params): string { if Get(p, Transport) == "" then "tcp" else Get(p, Transport) }

  /** The string member `k` of a printed object. */
  function Printed(r: Link, fragment: string, k: Member): string {
    match k
    case Same(f) => Get(r.params, Copied(f))
    case V => "2"
    case Ps => fragment
    case Add => r.host
    case Id => r.id
    case Net => PrintedNet(r.params)
    case Kind => PrintedKind(r.params)
    case Tls => if Secured(Get(r.params, Security)) != "" then "tls" else ""
    case _ => ""
  }

  lemma CleanedStr(o: Object, k: Member)
    requires k in o ==> o[k].Text?
    ensures Str(Cleaned(o), k) == Str(o, k) && (k in Cleaned(o) ==> Cleaned(o)[k].Text?)
  {}

  lemma HeadStr(r: Link, fragment: string, k: Member)
    requires IsString(k) && !k.Same?
    ensures var o := Head(r, fragment); k in o && o[k] == Text(Printed(r, fragment, k))
  {}

  lemma PrintedStr(env: Env, r: Link, fragment: string, k: Member)
    requires IsString(k)
    ensures var o := PrintedObject(env, r, fragment);
            Str(o, k) == Printed(r, fragment, k) && (k in o ==> o[k].Text?)
  {
    if k.Same? { AllFields(k.field); } else { HeadStr(r, fragment, k); }
    AddingIs(Head(r, fragment), r.params, FIELDS, k);
    CleanedStr(Draft(env, r, fragment), k);
  }

  lemma PrintedOthers(env: Env, r: Link, fragment: string)
    ensures var o := PrintedObject(env, r, fragment);
            && AllowInsecure !in o
            && PortNumber in o && o[PortNumber] == Number(r.port as real)
            && (Get(r.params, Extra) != "" && env.normalize(Get(r.params, Extra)).Some?
                ==> ExtraJson in o && o[ExtraJson] == Nested(env.normalize(Get(r.params, Extra)).value))
            && (Get(r.params, Extra) == "" ==> ExtraJson !in o)
  {
    AddingIs(Head(r, fragment), r.params, FIELDS, AllowInsecure);
    AddingIs(Head(r, fragment), r.params, FIELDS, PortNumber);
    AddingIs(Head(r, fragment), r.params, FIELDS, ExtraJson);
  }

  /** The members of a printed object, in terms of the record. */
  lemma PrintedMeans(env: Env, r: Link, fragment: string)
    ensures var o, p := PrintedObject(env, r, fragment), r.params;
            && Str(o, V) == "2" && Str(o, Ps) == fragment && Str(o, Add) == r.host && Str(o, Id) == r.id
            && PortNumber in o && o[PortNumber] == Number(r.port as real)
            && Str(o, Net) == (if Get(p, Transport) == "" then "tcp" else Get(p, Transport))
            && Str(o, Kind) == (if Get(p, HeaderType) != "" then Get(p, HeaderType) else if Get(p, Transport) == "" then "tcp" else Get(p, Transport))
            && Str(o, Tls) == (if Get(p, Security) == "tls" || Get(p, Security) == "reality" then "tls" else "")
            && (forall f :: Str(o, Same(f)) == Get(p, Copied(f)))
            && AllowInsecure !in o && forall k :: k in o ==> o[k] != Text("")
  {
    PrintedOthers(env, r, fragment);
    PrintedStr(env, r, fragment, V);
    PrintedStr(env, r, fragment, Ps);
    PrintedStr(env, r, fragment, Add);
    PrintedStr(env, r, fragment, Id);
    PrintedStr(env, r, fragment, Net);
    PrintedStr(env, r, fragment, Kind);
    PrintedStr(env, r, fragment, Tls);
    forall f ensures Str(PrintedObject(env, r, fragment), Same(f)) == Get(r.params, Copied(f)) { PrintedStr(env, r, fragment, Same(f)); }
  }

  // ---------------------------------------------------------------- printing and parsing again

  /** Print a record under its own name and parse the object again. */
  function Again(env: Env, r: Link): Option<Link> { ParsedObject(env, PrintedObject(env, r, r.fragment)) }

  /** The parameter `k` after that. */
  function Rewritten(m: Params, k: Param): string {
    match k
    case Security => if Get(m, Security) != "" then "tls" else ""
    case HeaderType => if PrintedKind(m) != "none" then PrintedKind(m) else ""
    case Insecure => ""
    case _ => Get(m, k)
  }

  lemma PrintedParses(env: Env, r: Link)
    requires env.Canonical() && Shaped(env, r.params)
    ensures var o := PrintedObject(env, r, r.fragment);
            && ParsedObject(env, o).Some?
            && (if Get(r.params, Extra) != "" then ExtraJson in o && o[ExtraJson] == Nested(Get(r.params, Extra)) else ExtraJson !in o)
  {
    var o := PrintedObject(env, r, r.fragment);
    PrintedOthers(env, r, r.fragment);
    forall k | IsString(k) ensures k in o ==> o[k].Text? { PrintedStr(env, r, r.fragment, k); }
    PrintedStr(env, r, r.fragment, V);
    ParsedIff(env, o);
  }

  lemma AgainParams(env: Env, r: Link)
    requires env.Canonical() && Shaped(env, r.params) && Again(env, r).Some?
    ensures var again := Again(env, r).value;
            Shaped(env, again.params) && forall k :: Get(again.params, k) == Rewritten(r.params, k)
  {
    var o := PrintedObject(env, r, r.fragment);
    ParsedShaped(env, o);
    forall k ensures Get(Again(env, r).value.params, k) == Rewritten(r.params, k) {
      ParsedGet(env, o, k);
      ViewOfPrinted(env, r, k);
    }
  }

  lemma AgainFields(env: Env, r: Link)
    requires Again(env, r).Some?
    ensures var again := Again(env, r).value;
            again.host == r.host && again.port == r.port && again.id == r.id && again.fragment == r.fragment
  {
    PrintedOthers(env, r, r.fragment);
    PrintedStr(env, r, r.fragment, Add);
    PrintedStr(env, r, r.fragment, Id);
    PrintedStr(env, r, r.fragment, Ps);
  }

  /** The exact effect of printing and parsing on a parsed record: host, port, id and name
      are kept, so is every parameter except `security`, `headerType` and `insecure`. */
  lemma AgainIs(env: Env, r: Link)
    requires env.Canonical() && Shaped(env, r.params)
    ensures Again(env, r).Some?
    ensures var again := Again(env, r).value;
            && again.host == r.host && again.port == r.port && again.id == r.id && again.fragment == r.fragment
            && Shaped(env, again.params)
            && forall k :: Get(again.params, k) == Rewritten(r.params, k)
  {
    PrintedParses(env, r);
    AgainParams(env, r);
    AgainFields(env, r);
  }

  lemma ViewOfPrinted(env: Env, r: Link, k: Param)
    requires env.Canonical() && Shaped(env, r.params)
    ensures View(env, PrintedObject(env, r, r.fragment), k) == Rewritten(r.params, k)
  {
    var o := PrintedObject(env, r, r.fragment);
    PrintedOthers(env, r, r.fragment);
    PrintedStr(env, r, r.fragment, Net);
    PrintedStr(env, r, r.fragment, Tls);
    PrintedStr(env, r, r.fragment, Kind);
    if k.Copied? { PrintedStr(env, r, r.fragment, Same(k.field)); }
  }

  lemma RewritingSettles(env: Env, m: Params, n: Params, k: Param)
    requires Shaped(env, m) && Shaped(env, n) && forall j :: Get(n, j) == Rewritten(m, j)
    ensures Rewritten(n, k) == Get(n, k)
  {
    assert Get(n, Security) == Rewritten(m, Security) && Get(n, HeaderType) == Rewritten(m, HeaderType);
    assert Get(n, Transport) == Rewritten(m, Transport) && Get(n, Insecure) == Rewritten(m, Insecure);
  }

  /** Printing and parsing is lossy at most once: on any parsed record, doing it twice
      gives the same record as doing it once. */
  lemma LossyAtMostOnce(env: Env, o: Object)
    requires env.Canonical() && ParsedObject(env, o).Some?
    ensures var once := Again(env, ParsedObject(env, o).value);
            once.Some? && Again(env, once.value) == once
  {
    var r := ParsedObject(env, o).value;
    ParsedShaped(env, o);
    AgainIs(env, r);
    var once := Again(env, r).value;
    AgainIs(env, once);
    var twice := Again(env, once).value;
    forall k ensures Get(twice.params, k) == Get(once.params, k) { RewritingSettles(env, r.params, once.params, k); }
    TidyEqual(twice.params, once.params);
  }

  /** A record that printing and parsing leaves alone. */
  predicate Lossless(m: Params) {
    Get(m, Security) != "reality" && Get(m, Insecure) == "" && (Get(m, HeaderType) != "" || Get(m, Transport) == "none")
  }

  lemma LosslessParams(env: Env, m: Params, n: Params)
    requires Shaped(env, m) && Shaped(env, n) && forall k :: Get(n, k) == Rewritten(m, k)
    ensures n == m <==> Lossless(m)
  {
    assert Get(n, Security) == Rewritten(m, Security) && Get(n, HeaderType) == Rewritten(m, HeaderType);
    assert Get(n, Insecure) == Rewritten(m, Insecure);
    if Lossless(m) {
      forall k ensures Get(n, k) == Get(m, k) { assert Get(n, k) == Rewritten(m, k); }
      TidyEqual(n, m);
    }
  }

  lemma LosslessObject(env: Env, o: Object)
    requires env.Canonical() && ParsedObject(env, o).Some?
    ensures Lossless(ParsedObject(env, o).value.params) <==>
              && Str(o, Tls) != "reality"
              && !(AllowInsecure in o && o[AllowInsecure] == Flag(true))
              && (Str(o, Kind) !in {"", "none"} || Str(o, Net) == "none")
  {
    ParsedGet(env, o, Security);
    ParsedGet(env, o, HeaderType);
    ParsedGet(env, o, Insecure);
    ParsedGet(env, o, Transport);
  }

  /** It loses nothing exactly when the link is not REALITY, does not switch off
      certificate checks, and has a header type or the transport "none". */
  lemma LosslessIff(env: Env, o: Object)
    requires env.Canonical() && ParsedObject(env, o).Some?
    ensures var r := ParsedObject(env, o).value;
            Again(env, r) == Some(r) <==>
              && Str(o, Tls) != "reality"
              && !(AllowInsecure in o && o[AllowInsecure] == Flag(true))
              && (Str(o, Kind) !in {"", "none"} || Str(o, Net) == "none")
  {
    var r := ParsedObject(env, o).value;
    ParsedShaped(env, o);
    AgainIs(env, r);
    LosslessParams(env, r.params, Again(env, r).value.params);
    LosslessObject(env, o);
  }

  // ---------------------------------------------------------------- the envelope

  lemma {:induction false} TrimPaddingOf(s: string, fill: string)
    requires '=' !in s && forall i :: 0 <= i < |fill| ==> fill[i] == '='
    ensures TrimPadding(s + fill) == s
  {
    if fill == "" {
      assert s + fill == s;
      if s != "" { assert s[|s|-1] in s; }
    } else {
      assert (s + fill)[..|s + fill|-1] == s + fill[..|fill|-1];
      TrimPaddingOf(s, fill[..|fill|-1]);
    }
  }

  /** What is wrapped without padding is unwrapped again, for every object that the JSON
      reader reads back. */
  lemma EnvelopeRoundTrip(env: Env, o: Object)
    requires Base64.IsBytes(env.write(o)) && env.read(env.write(o)) == Some(o)
    ensures Unwrapped(env, Wrapped(env, o)) == Some(o)
  {
    var e := Base64.Encode(Base64.Std, env.write(o));
    Base64.CharsInAlphabet(Base64.Std, Base64.Sextets(env.write(o)));
    Base64.PadShape(e);
    var p := Base64.Pad(e);
    assert p == e + p[|e|..];
    TrimPaddingOf(e, p[|e|..]);
    forall i | 0 <= i < |e| ensures Translated(e[i]) == e[i] { assert e[i] in e; }
    assert Standard(e) == e;
    Base64.PaddedRoundTrip(Base64.Std, env.write(o));
  }

  lemma {:induction false} CharsTranslated(v: seq<Base64.Sextet>)
    ensures Standard(Base64.Chars(Base64.Url, v)) == Base64.Chars(Base64.Std, v)
  {
    if v != [] {
      var rest := Base64.Chars(Base64.Url, v[1..]);
      CharsTranslated(v[1..]);
      assert Translated(Base64.EncodeChar(Base64.Url, v[0])) == Base64.EncodeChar(Base64.Std, v[0]);
      assert Standard([Base64.EncodeChar(Base64.Url, v[0])] + rest) == [Base64.EncodeChar(Base64.Std, v[0])] + Standard(rest);
    }
  }

  lemma StandardStays(e: string)
    requires '-' !in e && '_' !in e
    ensures Standard(e) == e
  {
    forall i | 0 <= i < |e| ensures Translated(e[i]) == e[i] { assert e[i] in e; }
  }

  /** Padded or not, a text is translated the same. */
  lemma StandardPadded(e: string)
    ensures Standard(Base64.Pad(e)) == Base64.Pad(Standard(e)) && Base64.Pad(Base64.Pad(e)) == Base64.Pad(e)
  {
    Base64.PadShape(e);
    Base64.PadShape(Standard(e));
  }

  /** An envelope in either alphabet, with or without its padding, is read as what is in it. */
  lemma EitherAlphabet(env: Env, a: Base64.Alphabet, text: string)
    requires Base64.IsBytes(text)
    ensures Unwrapped(env, Base64.Encode(a, text)) == env.read(text)
    ensures Unwrapped(env, Base64.Pad(Base64.Encode(a, text))) == env.read(text)
  {
    var v := Base64.Sextets(text);
    var e := Base64.Encode(a, text);
    Base64.CharsInAlphabet(Base64.Std, v);
    CharsTranslated(v);
    if a.Std? { StandardStays(e); }
    StandardPadded(e);
    StandardPadded(Standard(e));
    Base64.PaddedRoundTrip(Base64.Std, text);
  }

  /** A printed link, parsed again, is what printing and parsing the object gives. */
  lemma LinkRoundTrip(env: Env, r: Link)
    requires env.WritesBytes()
    requires var o := PrintedObject(env, r, r.fragment); env.read(env.write(o)) == Some(o)
    ensures var link := SCHEME + Wrapped(env, PrintedObject(env, r, r.fragment));
            match Unwrapped(env, link[|SCHEME|..])
            case None => false
            case Some(o) => ParsedObject(env, o) == Again(env, r)
  {
    var o := PrintedObject(env, r, r.fragment);
    EnvelopeRoundTrip(env, o);
    assert (SCHEME + Wrapped(env, o))[|SCHEME|..] == Wrapped(env, o);
  }
}
