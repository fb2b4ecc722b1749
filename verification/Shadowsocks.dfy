/** Shadowsocks share links: `parseSS` (internal/parse/parse.go) and `reconstructSS`
    (internal/format/format.go). */
module Shadowsocks {
  import opened Common
  import opened Text
  import opened Base64

  /** What a Shadowsocks link says; the record of it adds the protocol and the line. */
  datatype Link = Link(host: string, port: int, password: string, params: map<string, string>, fragment: string)

  /** `base64decode`: URL-safe raw, URL-safe padded, standard as it stands, standard padded. */
  function Lenient(s: string): Option<string> {
    var raw := Decode(Url, false, s);
    if raw.Some? then raw
    else
      var url := Decode(Url, true, Pad(s));
      if url.Some? then url
      else
        var std := Decode(Std, true, s);
        if std.Some? then std else Decode(Std, true, Pad(s))
  }

  method Base64Decode(s: string) returns (r: Option<string>)
    ensures r == Lenient(s)
  {
    r := Decode(Url, false, s);
    if r.Some? { return; }
    var s2 := PadLoop(s);
    r := Decode(Url, true, s2);
    if r.Some? { return; }
    r := Decode(Std, true, s);
    if r.Some? { return; }
    s2 := PadLoop(s);
    r := Decode(Std, true, s2);
  }

  /** What `Lenient` makes of a text whose standard values decode: the alphabets agree, or
      the padding has to come out right. */
  lemma LenientOfStd(s: string)
    requires Decode(Std, false, s).Some?
    ensures var t := SkipNewlines(s);
            Lenient(s) == if ('+' !in t && '/' !in t) || |t| % 4 == 0 || |s| % 4 == |t| % 4 then Decode(Std, false, s) else None
  {
    var t := SkipNewlines(s);
    ValuesAgree(t);
    BytesLength(Values(Std, t).value);
    DecodePaddedLines(Url, s);
    DecodePaddedLines(Std, s);
    DecodeAsItStands(Std, s);
  }

  /** The third attempt is commented as unpadded and is padded. That loses a text which the
      unpadded standard encoding reads exactly when it has a `+` or a `/`, its length without
      line breaks is no multiple of four, and the number of line breaks is none either. */
  lemma MissingAttemptIff(s: string)
    requires Decode(Std, false, s).Some?
    ensures Lenient(s) != Decode(Std, false, s) <==>
              var t := SkipNewlines(s); ('+' in t || '/' in t) && |t| % 4 != 0 && (|s| - |t|) % 4 != 0
    ensures Lenient(s) != Decode(Std, false, s) ==> Lenient(s) == None
  {
    var n := |SkipNewlines(s)|;
    assert (|s| - n) % 4 == 0 <==> |s| % 4 == n % 4;
    LenientOfStd(s);
  }

  lemma ValuesAhead(a: Alphabet, c: char, rest: string)
    requires DecodeChar(a, c).Some? && Values(a, rest).Some?
    ensures Values(a, [c] + rest) == Some([DecodeChar(a, c).value] + Values(a, rest).value)
  {
    assert ([c] + rest)[1..] == rest;
  }

  lemma ShortLine()
    ensures SkipNewlines("+A\r") == "+A" && DecodeRaw(Std, "+A") == Some([0xF8 as char])
  {
    var s := "+A\r";
    assert s[1..] == "A\r" && "A\r"[1..] == "\r" && "\r"[1..] == "";
    assert SkipNewlines("A\r") == ['A'] + "" && SkipNewlines(s) == ['+'] + "A";
    ValuesAhead(Std, '+', "A");
    ValuesAhead(Std, 'A', "");
  }

  lemma OneBreakLoses(s: string, t: string)
    requires t == SkipNewlines(s) && |t| == 2 && |s| == 3 && '+' in t && DecodeRaw(Std, t).Some?
    ensures Lenient(s) == None
  {
    assert |t| % 4 == 2 && (|s| - |t|) % 4 == 1 && Decode(Std, false, s) == DecodeRaw(Std, t);
    MissingAttemptIff(s);
  }

  /** A byte behind `+`, cut from its delimiter by a carriage return, is not read. */
  lemma BrokenLineIsLost()
    ensures Decode(Std, false, "+A\r") == Some([0xF8 as char]) && Lenient("+A\r") == None
  {
    ShortLine();
    OneBreakLoses("+A\r", "+A");
  }

  /** Whatever either alphabet encodes, padded or not, is read back. */
  lemma LenientRoundTrip(a: Alphabet, s: string)
    requires IsBytes(s)
    ensures Lenient(Encode(a, s)) == Some(s) && Lenient(Pad(Encode(a, s))) == Some(s)
  {
    var e := Encode(a, s);
    CharsInAlphabet(a, Sextets(s));
    NothingToSkip(e);
    RawRoundTrip(a, s);
    PaddedRoundTrip(a, s);
    if a.Std? { LenientOfStd(e); }
    if Pad(e) != e { LenientOfPadded(a, e); }
  }

  lemma LenientOfPadded(a: Alphabet, e: string)
    requires DecodeRaw(a, e).Some? && Pad(e) != e && forall c :: c in e ==> InAlphabet(c)
    ensures Lenient(Pad(e)) == DecodeRaw(a, e)
  {
    var p := Pad(e);
    PadShape(e);
    assert p[|e|] == '=' && Pad(p) == p;
    NothingToSkip(p);
    PaddingIsNoValue(Url, p);
    BytesLength(Values(a, e).value);
    DecodePadded(Url, e);
    DecodePadded(Std, e);
    if a.Std? { ValuesAgree(e); }
  }

  /** `splitHostPort`: ("", 0) for a bad address, port 0 for a bad port. */
  function HostAndPort(hp: string): (string, int) {
    match SplitHostPort(hp)
    case BadAddress => ("", 0)
    case HostPort(host, port) =>
      match Atoi(port)
      case None => (host, 0)
      case Some(p) => (host, p)
  }

  /** Later pairs win; a pair without `=` has an empty value. */
  function Params(pairs: seq<string>): map<string, string> {
    if pairs == [] then map[]
    else
      var pair := pairs[|pairs|-1];
      var eq := Index(pair, '=');
      if eq < |pair| then Params(pairs[..|pairs|-1])[pair[..eq] := pair[eq+1..]]
      else Params(pairs[..|pairs|-1])[pair := ""]
  }

  /** The text before the first `c`, all of it if there is none. */
  function Until(s: string, c: char): string { s[..Index(s, c)] }

  /** The text after the first `c`, "" if there is none. */
  function After(s: string, c: char): string {
    if Index(s, c) < |s| then s[Index(s, c)+1..] else ""
  }

  /** `method:password`, split at the first colon. */
  function Credentials(s: string): Option<(string, string)> {
    if ':' in s then Some((Until(s, ':'), After(s, ':'))) else None
  }

  function Build(credentials: Option<(string, string)>, hp: string, params: map<string, string>, fragment: string): Option<Link> {
    match credentials
    case None => None
    case Some((cipher, password)) =>
      var (host, port) := HostAndPort(hp);
      if host == "" || port == 0 then None
      else Some(Link(host, port, password, params["method" := cipher], fragment))
  }

  /** Cipher and password from the part before the `@`: plain, or else base64. */
  function UserInfo(user: string): Option<(string, string)> {
    if ':' in user then Credentials(user)
    else
      match Lenient(user)
      case None => None
      case Some(decoded) => Credentials(decoded)
  }

  /** A link that is base64 as a whole. */
  function Legacy(main: string, params: map<string, string>, fragment: string): Option<Link> {
    match Lenient(main)
    case None => None
    case Some(decoded) =>
      var innerAt := LastIndex(decoded, '@');
      if innerAt == |decoded| then None
      else Build(Credentials(decoded[..innerAt]), decoded[innerAt+1..], params, fragment)
  }

  /** Credentials and address of a link without query and fragment. */
  function Main(encoded: string): string { TrimSlash(Until(Until(encoded, '#'), '?')) }

  function QueryOf(encoded: string): map<string, string> {
    if '?' in Until(encoded, '#') then Params(Split(After(Until(encoded, '#'), '?'), '&')) else map[]
  }

  function FromMain(main: string, params: map<string, string>, fragment: string): Option<Link> {
    var at := LastIndex(main, '@');
    if at == |main| then Legacy(main, params, fragment)
    else Build(UserInfo(main[..at]), main[at+1..], params, fragment)
  }

  /** What a link without its `ss://` means. */
  function Parsed(encoded: string): Option<Link> {
    FromMain(Main(encoded), QueryOf(encoded), After(encoded, '#'))
  }

  const SCHEME := "ss://"

  method ParsePairs(pairs: seq<string>) returns (params: map<string, string>)
    ensures params == Params(pairs)
  {
    params := map[];
    for i := 0 to |pairs|
      invariant params == Params(pairs[..i])
    {
      var pair := pairs[i];
      assert pairs[..i+1][..i] == pairs[..i];
      var eqIdx := Index(pair, '=');
      if eqIdx != |pair| {
        params := params[pair[..eqIdx] := pair[eqIdx+1..]];
      } else {
        params := params[pair := ""];
      }
    }
    assert pairs[..|pairs|] == pairs;
  }

  method ParseSS(line: string) returns (r: Option<Link>)
    requires SCHEME <= line
    ensures r == Parsed(line[|SCHEME|..])
  {
    var encoded := line[|SCHEME|..];
    var hashIdx := Index(encoded, '#');
    var fragment, main := "", encoded;
    if hashIdx != |encoded| {
      fragment, main := encoded[hashIdx+1..], encoded[..hashIdx];
    }
    assert main == Until(encoded, '#') && fragment == After(encoded, '#');
    var params: map<string, string>;
    params, main := TakeQuery(main);
    main := TrimSlash(main);
    r := ParseMain(main, params, fragment);
  }

  /** The query of a link without fragment, and the link without it. */
  method TakeQuery(main: string) returns (params: map<string, string>, rest: string)
    ensures params == (if '?' in main then Params(Split(After(main, '?'), '&')) else map[]) && rest == Until(main, '?')
  {
    params, rest := map[], main;
    var qIdx := Index(main, '?');
    if qIdx != |main| {
      params := ParsePairs(Split(main[qIdx+1..], '&'));
      rest := main[..qIdx];
    }
  }

  method ParseLegacy(main: string, params: map<string, string>, fragment: string) returns (r: Option<Link>)
    requires LastIndex(main, '@') == |main|
    ensures r == FromMain(main, params, fragment)
  {
    var decoded := Base64Decode(main);
    if decoded.None? { return None; }
    var innerAt := LastIndex(decoded.value, '@');
    if innerAt == |decoded.value| { return None; }
    r := Build(Credentials(decoded.value[..innerAt]), decoded.value[innerAt+1..], params, fragment);
  }

  method ParseAddressed(main: string, atIdx: nat, params: map<string, string>, fragment: string) returns (r: Option<Link>)
    requires atIdx < |main| && LastIndex(main, '@') == atIdx
    ensures r == FromMain(main, params, fragment)
  {
    var methodPassword := main[..atIdx];
    if ':' !in methodPassword {
      var decoded := Base64Decode(methodPassword);
      if decoded.None? { return None; }
      methodPassword := decoded.value;
    }
    r := Build(Credentials(methodPassword), main[atIdx+1..], params, fragment);
  }

  method ParseMain(main: string, params: map<string, string>, fragment: string) returns (r: Option<Link>)
    ensures r == FromMain(main, params, fragment)
  {
    var atIdx := LastIndex(main, '@');
    if atIdx == |main| {
      r := ParseLegacy(main, params, fragment);
    } else {
      r := ParseAddressed(main, atIdx, params, fragment);
    }
  }

  // ---------------------------------------------------------------- printing

  function CipherOf(r: Link): string {
    if "method" in r.params && r.params["method"] != "" then r.params["method"] else "aes-256-gcm"
  }

  /** `escape` is `url.PathEscape`. */
  function Printed(r: Link, fragment: string, escape: string -> string): string
    requires IsBytes(CipherOf(r)) && IsBytes(r.password)
  {
    SCHEME + Encode(Url, CipherOf(r) + ":" + r.password) + "@" + FormatHost(r.host) + ":" + FormatInt(r.port)
    + if fragment == "" then "" else "#" + escape(fragment)
  }

  // ---------------------------------------------------------------- round trip

  lemma UntilAfterAt(a: string, c: char, b: string)
    requires c !in a
    ensures var s := a + [c] + b; Until(s, c) == a && After(s, c) == b && c in s
  {
    var s := a + [c] + b;
    assert s[|a|] == c && s[..|a|] == a && s[|a|+1..] == b;
    IndexAt(s, c, |a|);
  }

  lemma UntilNone(s: string, c: char)
    requires c !in s
    ensures Until(s, c) == s && After(s, c) == ""
  {}

  /** Free of the characters that delimit the other parts of a link. */
  predicate Delimited(host: string) { '#' in host || '?' in host || '@' in host || !Unbracketed(host) }

  /** The encoded credentials contain none of the delimiters and decode back. */
  lemma EncodedCredentials(cipher: string, password: string)
    requires IsBytes(cipher) && IsBytes(password)
    ensures IsBytes(cipher + ":" + password)
    ensures var e := Encode(Url, cipher + ":" + password);
            && '#' !in e && '?' !in e && '@' !in e && ':' !in e
            && Lenient(e) == Some(cipher + ":" + password)
  {
    var s := cipher + ":" + password;
    CharsInAlphabet(Url, Sextets(s));
    RawRoundTrip(Url, s);
  }

  /** The cipher and the password come back exactly when the cipher has no colon. */
  lemma CredentialsSplit(cipher: string, password: string)
    ensures Credentials(cipher + ":" + password).Some?
    ensures Credentials(cipher + ":" + password) == Some((cipher, password)) <==> ':' !in cipher
  {
    var s := cipher + ":" + password;
    assert s[|cipher|] == ':';
    if ':' !in cipher {
      UntilAfterAt(cipher, ':', password);
    } else {
      assert ':' in Until(s, ':') || |Until(s, ':')| < |cipher| by {
        var k := Index(cipher, ':');
        assert s[..k] == cipher[..k];
        IndexAt(s, ':', k);
      }
    }
  }

  lemma PortText(port: int)
    requires 1 <= port <= 65535
    ensures FormatInt(port) == Itoa(port) && Atoi(Itoa(port)) == Some(port)
    ensures forall c :: c in Itoa(port) ==> IsDigit(c)
  {
    AtoiOfItoa(port);
  }

  /** A printed address that has lost its tail cannot give the host back. */
  lemma CutAddressLosesHost(hp: string, host: string)
    requires |hp| <= |host| + 1 && host != ""
    ensures HostAndPort(hp).0 != host || HostAndPort(hp).1 == 0
  {
    SplitShorter(hp);
    match SplitHostPort(hp)
    case BadAddress =>
    case HostPort(h, p) => if p == "" { assert Atoi(p) == None; }
  }

  /** An `@` in the host moves the start of the address into the host. */
  lemma LateAtLosesHost(host: string, port: string, address: string, cut: nat)
    requires ':' !in port && 0 < cut <= |FormatHost(host)| && FormatHost(host)[cut-1] == '@'
    requires address == FormatHost(host) + (":" + port)
    ensures HostAndPort(address[cut..]).0 != host
  {
    var f := FormatHost(host);
    var hp := address[cut..];
    var i := |f| - cut;
    assert hp[i] == ':' && hp[i+1..] == port;
    LastIndexAt(hp, ':', i);
    SplitShorter(hp);
    if ':' in host {
      assert f[0] == '[' && cut >= 2 && f[|f|-1] == ']';
      assert hp[i-1] == ']' by { assert cut < |f|; }
    }
  }

  /** The link without `ss://` splits at the delimiters of the address that is in it. */
  lemma MainOf(user: string, address: string, tail: string)
    requires '#' !in user && '?' !in user
    requires tail == "" || tail[0] == '#'
    ensures var link := user + "@" + address + tail;
            Until(Until(link, '#'), '?') == user + "@" + Until(Until(address, '#'), '?')
  {
    var link := user + "@" + address + tail;
    var cutAt := if '#' in address then Index(address, '#') else |address|;
    assert Until(link, '#') == user + "@" + Until(address, '#') by {
      var k := |user| + 1 + Index(address, '#');
      var head := user + "@" + address[..Index(address, '#')];
      assert '#' !in head;
      assert link[..k] == head;
      if k < |link| { IndexAt(link, '#', k); } else { assert link == head; }
    }
    var main := Until(address, '#');
    var cut := user + "@" + main;
    var k := |user| + 1 + Index(main, '?');
    var head := user + "@" + main[..Index(main, '?')];
    assert '?' !in head && cut[..k] == head;
    if k < |cut| { IndexAt(cut, '?', k); } else { assert cut == head; }
  }

  /** What `Parsed` reads from a link with these credentials and this address. */
  ghost predicate ReadsAddress(main: string, user: string, host: string, port: int) {
    var at := LastIndex(main, '@');
    && at < |main|
    && (HostAndPort(main[at+1..]) == (host, port) <==> !Delimited(host))
    && (!Delimited(host) ==> main[..at] == user)
  }

  lemma CutAddress(user: string, body: string, host: string, port: int)
    requires |body| <= |host| + 1 && host != "" && port != 0 && Delimited(host)
    ensures ReadsAddress(TrimSlash(user + "@" + body), user, host, port)
  {
    var main := TrimSlash(user + "@" + body);
    var at := LastIndex(main, '@');
    LastIndexAtLeast(main, '@', |user|);
    CutAddressLosesHost(main[at+1..], host);
  }

  /** `address` is the printed host, a colon and the port. */
  ghost predicate IsAddress(address: string, host: string, port: int) {
    1 <= port <= 65535 && address == FormatHost(host) + (":" + Itoa(port))
  }

  lemma AddressShape(address: string, host: string, port: int)
    requires IsAddress(address, host, port)
    ensures var n, p := |FormatHost(host)|, Itoa(port);
            && |address| == n + 1 + |p| && address[..n] == FormatHost(host) && address[n] == ':' && address[n+1..] == p
            && ':' !in p && '@' !in p && '[' !in p && ']' !in p
            && IsDigit(address[|address|-1])
    ensures '#' in address <==> '#' in host
    ensures '?' in address <==> '?' in host
    ensures '@' in address <==> '@' in host
  {
    PortText(port);
    FormatHostKeeps(host);
  }

  lemma AddressRead(user: string, address: string, host: string, port: int)
    requires IsAddress(address, host, port) && host != ""
    ensures ReadsAddress(TrimSlash(user + "@" + Until(Until(address, '#'), '?')), user, host, port)
  {
    AddressShape(address, host, port);
    if '#' in host || '?' in host {
      FormatHostKeeps(host);
      CutShort(FormatHost(host), ":" + Itoa(port));
      CutAddress(user, Until(Until(address, '#'), '?'), host, port);
    } else {
      UntilNone(address, '#');
      UntilNone(address, '?');
      NoSlashToTrim(user + "@", address);
      if '@' in host { LateAtAddress(user, address, host, port); } else { WholeAddress(user, address, host, port); }
    }
  }

  lemma NoSlashToTrim(a: string, b: string)
    requires b != "" && IsDigit(b[|b|-1])
    ensures TrimSlash(a + b) == a + b
  {}

  lemma FormatHostKeeps(host: string)
    ensures '#' in FormatHost(host) <==> '#' in host
    ensures '?' in FormatHost(host) <==> '?' in host
    ensures '@' in FormatHost(host) <==> '@' in host
  {}

  /** A link whose address part starts at the last `@` of the address. */
  lemma ReadFromLateAt(user: string, address: string, k: nat, host: string, port: int)
    requires k < |address| && address[k] == '@' && k == LastIndex(address, '@')
    requires HostAndPort(address[k+1..]).0 != host && Delimited(host)
    ensures ReadsAddress(user + "@" + address, user, host, port)
  {
    LastIndexAfter(user + "@", address, '@');
  }

  lemma LateAtAddress(user: string, address: string, host: string, port: int)
    requires IsAddress(address, host, port) && '@' in host
    ensures ReadsAddress(user + "@" + address, user, host, port)
  {
    AddressShape(address, host, port);
    var n, k := |FormatHost(host)|, LastIndex(address, '@');
    LastIndexBefore(address, '@', n);
    assert FormatHost(host)[k] == address[..n][k];
    LateAtLosesHost(host, Itoa(port), address, k + 1);
    ReadFromLateAt(user, address, k, host, port);
  }

  /** A link whose address has no `@`. */
  lemma ReadFromFirstAt(user: string, address: string, host: string, port: int)
    requires '@' !in address
    requires HostAndPort(address) == (host, port) <==> !Delimited(host)
    ensures ReadsAddress(user + "@" + address, user, host, port)
  {
    var main := user + "@" + address;
    assert main[|user|] == '@' && main[..|user|] == user;
    DropPast(user + "@", address, 0);
    LastIndexAt(main, '@', |user|);
  }

  lemma WholeAddress(user: string, address: string, host: string, port: int)
    requires IsAddress(address, host, port) && '@' !in host && '#' !in host && '?' !in host
    ensures ReadsAddress(user + "@" + address, user, host, port)
  {
    AddressShape(address, host, port);
    PortText(port);
    assert address == FormatHost(host) + ":" + Itoa(port);
    SplitJoined(host, Itoa(port));
    SplitPort(address, Itoa(port), |FormatHost(host)|);
    ReadFromFirstAt(user, address, host, port);
  }

  lemma CutShort(f: string, rest: string)
    requires '#' in f || '?' in f
    ensures |Until(Until(f + rest, '#'), '?')| < |f|
  {
    var whole := f + rest;
    if '#' in f {
      var k := Index(f, '#');
      assert whole[..k] == f[..k] && whole[k] == '#';
      IndexAt(whole, '#', k);
    } else {
      var k := Index(f, '?');
      var s := Until(whole, '#');
      assert f <= s by {
        var h := Index(whole, '#');
        assert whole[..|f|] == f;
        if h < |whole| { assert whole[h] == '#' && '#' !in f; }
      }
      assert s[..k] == f[..k] && s[k] == '?';
      IndexAt(s, '?', k);
    }
  }

  /** Whatever host is read, the port text is what follows the last colon. */
  lemma SplitPort(hp: string, port: string, i: nat)
    requires i < |hp| && hp[i] == ':' && hp[i+1..] == port && ':' !in port
    ensures SplitHostPort(hp).HostPort? ==> SplitHostPort(hp).port == port
  {
    LastIndexAt(hp, ':', i);
  }

  /** Host, port, cipher and password are those of `r`. */
  predicate Same(parsed: Option<Link>, r: Link) {
    && parsed.Some?
    && parsed.value.host == r.host && parsed.value.port == r.port && parsed.value.password == r.password
    && "method" in parsed.value.params && parsed.value.params["method"] == CipherOf(r)
  }

  /** Reading a printed link gives back host, port, cipher and password exactly when the
      cipher has no colon and the host is non-empty and free of `#`, `?`, `@` and brackets
      (an IPv6 host is printed in brackets): for every byte-string password, every port
      from 1 to 65535 and every fragment. */
  lemma ShadowsocksRoundTrip(r: Link, fragment: string, escape: string -> string)
    requires IsBytes(CipherOf(r)) && IsBytes(r.password) && 1 <= r.port <= 65535
    ensures SCHEME <= Printed(r, fragment, escape)
    ensures Same(Parsed(Printed(r, fragment, escape)[|SCHEME|..]), r)
            <==> ':' !in CipherOf(r) && r.host != "" && !Delimited(r.host)
  {
    var cipher := CipherOf(r);
    EncodedCredentials(cipher, r.password);
    CredentialsSplit(cipher, r.password);
    PortText(r.port);
    var user := Encode(Url, cipher + ":" + r.password);
    var address := FormatHost(r.host) + (":" + Itoa(r.port));
    var tail := if fragment == "" then "" else "#" + escape(fragment);
    var link := user + "@" + address + tail;
    PrintedLink(r, fragment, escape);
    MainOf(user, address, tail);
    if r.host != "" {
      AddressRead(user, address, r.host, r.port);
      ReadLink(link, user, r);
    } else {
      NeverEmptyHost(link);
    }
  }

  lemma Regrouped(scheme: string, user: string, host: string, port: string, tail: string)
    ensures scheme + user + "@" + host + ":" + port + tail == scheme + (user + "@" + (host + (":" + port)) + tail)
  {
    assert host + ":" + port == host + (":" + port);
    assert scheme + user + "@" + host + ":" + port == scheme + (user + "@" + (host + (":" + port)));
  }

  lemma PrintedLink(r: Link, fragment: string, escape: string -> string)
    requires IsBytes(CipherOf(r)) && IsBytes(r.password) && 1 <= r.port <= 65535
    ensures IsBytes(CipherOf(r) + ":" + r.password)
    ensures var tail := if fragment == "" then "" else "#" + escape(fragment);
            var link := Encode(Url, CipherOf(r) + ":" + r.password) + "@" + (FormatHost(r.host) + (":" + Itoa(r.port))) + tail;
            Printed(r, fragment, escape) == SCHEME + link && Printed(r, fragment, escape)[|SCHEME|..] == link
  {
    EncodedCredentials(CipherOf(r), r.password);
    var tail := if fragment == "" then "" else "#" + escape(fragment);
    var user := Encode(Url, CipherOf(r) + ":" + r.password);
    var link := user + "@" + (FormatHost(r.host) + (":" + Itoa(r.port))) + tail;
    PortText(r.port);
    Regrouped(SCHEME, user, FormatHost(r.host), Itoa(r.port), tail);
    assert Printed(r, fragment, escape) == SCHEME + link;
  }

  /** What is read has a host, a port and a method. */
  lemma NeverEmptyHost(link: string)
    ensures Parsed(link).Some? ==> Parsed(link).value.host != "" && Parsed(link).value.port != 0 && "method" in Parsed(link).value.params
  {}

  lemma FromMainAt(main: string, params: map<string, string>, fragment: string)
    requires LastIndex(main, '@') < |main|
    ensures var at := LastIndex(main, '@');
            FromMain(main, params, fragment) == Build(UserInfo(main[..at]), main[at+1..], params, fragment)
  {}

  lemma BuildSame(credentials: Option<(string, string)>, hp: string, params: map<string, string>, fragment: string, r: Link)
    requires r.host != "" && r.port != 0
    ensures Same(Build(credentials, hp, params, fragment), r) <==>
              credentials == Some((CipherOf(r), r.password)) && HostAndPort(hp) == (r.host, r.port)
  {}

  lemma ReadLink(link: string, user: string, r: Link)
    requires ReadsAddress(Main(link), user, r.host, r.port) && r.host != "" && r.port != 0
    requires UserInfo(user).Some?
    requires UserInfo(user) == Some((CipherOf(r), r.password)) <==> ':' !in CipherOf(r)
    ensures Same(Parsed(link), r) <==> ':' !in CipherOf(r) && !Delimited(r.host)
  {
    var main := Main(link);
    var at := LastIndex(main, '@');
    FromMainAt(main, QueryOf(link), After(link, '#'));
    BuildSame(UserInfo(main[..at]), main[at+1..], QueryOf(link), After(link, '#'), r);
  }

  // ---------------------------------------------------------------- the other forms of a link

  lemma ByteAtEnd(s: string)
    requires IsBytes(s) && s != "" && IsDigit(s[|s|-1])
    ensures Sextets(s) != [] && Sextets(s)[|Sextets(s)|-1] != 63
    decreases |s|
  {
    if |s| > 3 {
      assert s[3..][|s|-4] == s[|s|-1];
      ByteAtEnd(s[3..]);
    }
  }

  lemma {:induction false} LastChar(a: Alphabet, v: seq<Sextet>)
    requires v != []
    ensures Chars(a, v)[|v|-1] == EncodeChar(a, v[|v|-1])
  {
    if |v| > 1 { LastChar(a, v[1..]); }
  }

  /** What is encoded ends in a digit, so the encoding never ends in a slash to be trimmed. */
  lemma NoSlashAtEnd(a: Alphabet, s: string)
    requires IsBytes(s) && s != "" && IsDigit(s[|s|-1])
    ensures TrimSlash(Encode(a, s)) == Encode(a, s) && TrimSlash(Pad(Encode(a, s))) == Pad(Encode(a, s))
  {
    ByteAtEnd(s);
    LastChar(a, Sextets(s));
    PadShape(Encode(a, s));
  }

  /** What stands behind the last `@` of a text that ends in an address. */
  ghost predicate Behind(s: string, user: string, host: string, port: int) {
    var at := LastIndex(s, '@');
    && at < |s|
    && (HostAndPort(s[at+1..]) == (host, port) <==> '@' !in host && Unbracketed(host))
    && ('@' !in host ==> s[..at] == user)
  }

  lemma BehindFirst(user: string, address: string, host: string, port: int)
    requires '@' !in address && '@' !in host && (HostAndPort(address) == (host, port) <==> Unbracketed(host))
    ensures Behind(user + "@" + address, user, host, port)
  {
    var s := user + "@" + address;
    assert s[|user|] == '@' && s[|user|+1..] == address && s[..|user|] == user;
    LastIndexAt(s, '@', |user|);
  }

  lemma AddressBehind(user: string, address: string, host: string, port: int)
    requires IsAddress(address, host, port) && host != ""
    ensures Behind(user + "@" + address, user, host, port)
  {
    if '@' in host {
      LateAtAddress(user, address, host, port);
    } else {
      AddressShape(address, host, port);
      AddressWhole(address, host, port);
      BehindFirst(user, address, host, port);
    }
  }

  lemma AddressWhole(address: string, host: string, port: int)
    requires IsAddress(address, host, port)
    ensures HostAndPort(address) == (host, port) <==> Unbracketed(host)
  {
    AddressShape(address, host, port);
    PortText(port);
    assert address == FormatHost(host) + ":" + Itoa(port);
    SplitJoined(host, Itoa(port));
    SplitPort(address, Itoa(port), |FormatHost(host)|);
  }

  /** Nothing, or a query or a fragment. */
  predicate IsTail(tail: string) { tail == "" || tail[0] == '#' || tail[0] == '?' }

  lemma FragmentSplits(head: string, tail: string)
    requires '#' !in head && (tail == "" || tail[0] == '#')
    ensures Until(head + tail, '#') == head && After(head + tail, '#') == if tail == "" then "" else tail[1..]
  {
    if tail == "" {
      assert head + tail == head;
      UntilNone(head, '#');
    } else {
      assert head + tail == head + ['#'] + tail[1..];
      UntilAfterAt(head, '#', tail[1..]);
    }
  }

  lemma QueryCut(main: string, tail: string)
    requires '?' !in main && (tail == "" || tail[0] == '?')
    ensures Until(main + tail, '?') == main
  {
    if tail == "" {
      assert main + tail == main;
      UntilNone(main, '?');
    } else {
      assert main + tail == main + ['?'] + tail[1..];
      UntilAfterAt(main, '?', tail[1..]);
    }
  }

  lemma CutAtTail(main: string, tail: string)
    requires '#' !in main && '?' !in main && IsTail(tail)
    ensures Until(Until(main + tail, '#'), '?') == main
  {
    var k := Index(tail, '#');
    var query, fragment := tail[..k], tail[k..];
    assert main + tail == (main + query) + fragment;
    FragmentSplits(main + query, fragment);
    assert query == "" || query[0] == tail[0] == '?';
    QueryCut(main, query);
  }

  lemma LegacyReads(main: string, body: string, params: map<string, string>, fragment: string)
    requires '@' !in main && Lenient(main) == Some(body) && '@' in body
    ensures var at := LastIndex(body, '@');
            FromMain(main, params, fragment) == Build(Credentials(body[..at]), body[at+1..], params, fragment)
  {}

  /** A link that is base64 as a whole, in either alphabet and with or without its padding,
      with any query and fragment behind it: it gives back host, port, cipher and password
      exactly when the cipher has no colon and the host no `@` and no brackets; `#` and `?`
      in it do no harm, unlike in a printed link. */
  lemma WholeLinkRoundTrip(a: Alphabet, padded: bool, r: Link, tail: string)
    requires IsBytes(CipherOf(r)) && IsBytes(r.password) && IsBytes(r.host) && r.host != "" && 1 <= r.port <= 65535 && IsTail(tail)
    ensures var body := CipherOf(r) + ":" + r.password + "@" + (FormatHost(r.host) + (":" + Itoa(r.port)));
            IsBytes(body)
            && (Same(Parsed((if padded then Pad(Encode(a, body)) else Encode(a, body)) + tail), r) <==>
                  ':' !in CipherOf(r) && '@' !in r.host && Unbracketed(r.host))
  {
    var user, address := CipherOf(r) + ":" + r.password, FormatHost(r.host) + (":" + Itoa(r.port));
    var body := user + "@" + address;
    AllBytes(r, body);
    AddressShape(address, r.host, r.port);
    assert body[|user|] == '@' && body[|body|-1] == address[|address|-1];
    var e := if padded then Pad(Encode(a, body)) else Encode(a, body);
    WholeMain(a, padded, body, tail);
    LegacyParsed(e, tail, user, address, r);
  }

  lemma LegacyParsed(e: string, tail: string, user: string, address: string, r: Link)
    requires Main(e + tail) == e && '@' !in e && Lenient(e) == Some(user + "@" + address)
    requires user == CipherOf(r) + ":" + r.password && IsAddress(address, r.host, r.port) && r.host != ""
    ensures Same(Parsed(e + tail), r) <==> ':' !in CipherOf(r) && '@' !in r.host && Unbracketed(r.host)
  {
    var body := user + "@" + address;
    assert body[|user|] == '@';
    LegacyReads(e, body, QueryOf(e + tail), After(e + tail, '#'));
    BodyReads(user, address, QueryOf(e + tail), After(e + tail, '#'), r);
  }

  /** The encoded part of such a link is found and decoded. */
  lemma WholeMain(a: Alphabet, padded: bool, body: string, tail: string)
    requires IsBytes(body) && body != "" && IsDigit(body[|body|-1]) && IsTail(tail)
    ensures var e := if padded then Pad(Encode(a, body)) else Encode(a, body);
            Main(e + tail) == e && '@' !in e && Lenient(e) == Some(body)
  {
    EncodedIsClean(a, body);
    NoSlashAtEnd(a, body);
    LenientRoundTrip(a, body);
    CutAtTail(if padded then Pad(Encode(a, body)) else Encode(a, body), tail);
  }

  /** What is decoded gives credentials and address. */
  lemma BodyReads(user: string, address: string, params: map<string, string>, fragment: string, r: Link)
    requires user == CipherOf(r) + ":" + r.password && IsAddress(address, r.host, r.port) && r.host != ""
    ensures var body := user + "@" + address;
            var at := LastIndex(body, '@');
            && at < |body|
            && (Same(Build(Credentials(body[..at]), body[at+1..], params, fragment), r) <==>
                  ':' !in CipherOf(r) && '@' !in r.host && Unbracketed(r.host))
  {
    var body := user + "@" + address;
    AddressBehind(user, address, r.host, r.port);
    CredentialsSplit(CipherOf(r), r.password);
    var at := LastIndex(body, '@');
    BuildSame(Credentials(body[..at]), body[at+1..], params, fragment, r);
  }

  lemma AllBytes(r: Link, body: string)
    requires IsBytes(CipherOf(r)) && IsBytes(r.password) && IsBytes(r.host) && 1 <= r.port
    requires body == CipherOf(r) + ":" + r.password + "@" + (FormatHost(r.host) + (":" + Itoa(r.port)))
    ensures IsBytes(body)
  {
    assert IsBytes(Itoa(r.port)) by { assert forall i :: 0 <= i < |Itoa(r.port)| ==> IsDigit(Itoa(r.port)[i]); }
  }

  lemma EncodedIsClean(a: Alphabet, body: string)
    requires IsBytes(body)
    ensures forall e :: e == Encode(a, body) || e == Pad(Encode(a, body)) ==> '#' !in e && '?' !in e && '@' !in e
  {
    CharsInAlphabet(a, Sextets(body));
    PadShape(Encode(a, body));
  }

  /** A link with plain `method:password` before its address. */
  lemma PlainLinkRoundTrip(r: Link, tail: string)
    requires '#' !in CipherOf(r) && '?' !in CipherOf(r) && '#' !in r.password && '?' !in r.password
    requires r.host != "" && 1 <= r.port <= 65535 && (tail == "" || tail[0] == '#')
    ensures var link := CipherOf(r) + ":" + r.password + "@" + (FormatHost(r.host) + (":" + Itoa(r.port))) + tail;
            Same(Parsed(link), r) <==> ':' !in CipherOf(r) && !Delimited(r.host)
  {
    var user, address := CipherOf(r) + ":" + r.password, FormatHost(r.host) + (":" + Itoa(r.port));
    assert user[|CipherOf(r)|] == ':';
    CredentialsSplit(CipherOf(r), r.password);
    MainOf(user, address, tail);
    AddressRead(user, address, r.host, r.port);
    ReadLink(user + "@" + address + tail, user, r);
  }

  /** One part of a query: a key with its value, or a key alone. */
  datatype Pair = Pair(key: string, value: Option<string>) {
    function Text(): string { if value.Some? then key + "=" + value.value else key }
    function Read(): string { if value.Some? then value.value else "" }
    predicate Valid() {
      && '=' !in key && '&' !in key && '#' !in key
      && (value.Some? ==> '&' !in value.value && '#' !in value.value)
    }
  }

  function Query(pairs: seq<Pair>): string { Join(Parts(pairs), "&") }

  function Parts(pairs: seq<Pair>): (r: seq<string>)
    ensures |r| == |pairs|
  {
    seq(|pairs|, i requires 0 <= i < |pairs| => pairs[i].Text())
  }

  /** Pair `i` is the last one of its key. */
  predicate LastOfKey(pairs: seq<Pair>, i: int) {
    0 <= i < |pairs| && forall j :: i < j < |pairs| ==> pairs[j].key != pairs[i].key
  }

  /** Exactly the keys of the query, each with the value of its last pair. */
  ghost predicate Holds(params: map<string, string>, pairs: seq<Pair>) {
    && (forall k :: k in params ==> exists i :: 0 <= i < |pairs| && pairs[i].key == k)
    && (forall i :: 0 <= i < |pairs| ==> pairs[i].key in params)
    && forall i :: LastOfKey(pairs, i) ==> params[pairs[i].key] == pairs[i].Read()
  }

  lemma PairReads(x: Pair, params: map<string, string>)
    requires x.Valid()
    ensures var eq := Index(x.Text(), '=');
            (if eq < |x.Text()| then params[x.Text()[..eq] := x.Text()[eq+1..]] else params[x.Text() := ""]) == params[x.key := x.Read()]
  {
    if x.value.Some? {
      var t := x.Text();
      assert t[|x.key|] == '=' && t[..|x.key|] == x.key && t[|x.key|+1..] == x.value.value;
      IndexAt(t, '=', |x.key|);
    }
  }

  lemma LastOfKeySnoc(p: seq<Pair>, x: Pair, i: int)
    ensures LastOfKey(p + [x], i) <==> i == |p| || (LastOfKey(p, i) && p[i].key != x.key)
  {
    var pairs := p + [x];
    assert pairs[|p|] == x && forall j :: 0 <= j < |p| ==> pairs[j] == p[j];
  }

  lemma HoldsSnoc(params: map<string, string>, p: seq<Pair>, x: Pair)
    requires Holds(params, p)
    ensures Holds(params[x.key := x.Read()], p + [x])
  {
    var pairs, after := p + [x], params[x.key := x.Read()];
    assert pairs[|p|] == x && forall j :: 0 <= j < |p| ==> pairs[j] == p[j];
    forall i | LastOfKey(pairs, i) ensures after[pairs[i].key] == pairs[i].Read() { LastOfKeySnoc(p, x, i); }
    forall k | k in after ensures exists i :: 0 <= i < |pairs| && pairs[i].key == k {
      if k == x.key {
        assert pairs[|p|].key == k;
      } else {
        var i :| 0 <= i < |p| && p[i].key == k;
        assert pairs[i].key == k;
      }
    }
  }

  lemma ParamsSnoc(p: seq<Pair>, x: Pair)
    requires x.Valid()
    ensures Params(Parts(p + [x])) == Params(Parts(p))[x.key := x.Read()]
  {
    var parts := Parts(p + [x]);
    assert parts[..|p|] == Parts(p) && parts[|p|] == x.Text();
    PairReads(x, Params(Parts(p)));
  }

  lemma ParamsHoldSnoc(p: seq<Pair>, x: Pair)
    requires Holds(Params(Parts(p)), p) && x.Valid()
    ensures Holds(Params(Parts(p + [x])), p + [x])
  {
    ParamsSnoc(p, x);
    HoldsSnoc(Params(Parts(p)), p, x);
  }

  lemma ParamsNone()
    ensures Holds(Params(Parts([])), [])
  {
    assert Parts([]) == [];
  }

  lemma {:induction false} ParamsHold(pairs: seq<Pair>, n: nat)
    requires n <= |pairs| && forall i :: 0 <= i < |pairs| ==> pairs[i].Valid()
    ensures Holds(Params(Parts(pairs[..n])), pairs[..n])
  {
    if n == 0 {
      ParamsNone();
      assert pairs[..0] == [];
    } else {
      ParamsHold(pairs, n - 1);
      ParamsHoldSnoc(pairs[..n-1], pairs[n-1]);
      assert pairs[..n] == pairs[..n-1] + [pairs[n-1]];
    }
  }

  lemma {:induction false} JoinClean(lines: seq<string>, c: char)
    requires c != '&' && forall i :: 0 <= i < |lines| ==> c !in lines[i]
    ensures c !in Join(lines, "&")
  {
    if |lines| > 1 { JoinClean(lines[1..], c); }
  }

  /** What is read of a link that a query was put behind. */
  lemma QuerySplits(main: string, query: string, tail: string)
    requires '#' !in main && '?' !in main && '#' !in query && (tail == "" || tail[0] == '#')
    ensures var link := (main + ("?" + query)) + tail;
            && Main(link) == TrimSlash(main) && QueryOf(link) == Params(Split(query, '&'))
            && After(link, '#') == if tail == "" then "" else tail[1..]
  {
    var head := main + ("?" + query);
    FragmentSplits(head, tail);
    QueryFound(head + tail, main, query);
  }

  lemma QueryFound(link: string, main: string, query: string)
    requires Until(link, '#') == main + ("?" + query) && '?' !in main
    ensures Main(link) == TrimSlash(main) && QueryOf(link) == Params(Split(query, '&'))
  {
    assert main + ("?" + query) == main + ['?'] + query;
    UntilAfterAt(main, '?', query);
  }

  lemma NoQuery(main: string)
    requires '#' !in main && '?' !in main
    ensures Parsed(main) == FromMain(TrimSlash(main), map[], "")
  {
    UntilNone(main, '#');
    UntilNone(main, '?');
  }

  lemma QueryHolds(pairs: seq<Pair>) returns (params: map<string, string>)
    requires pairs != [] && forall i :: 0 <= i < |pairs| ==> pairs[i].Valid()
    ensures params == Params(Split(Query(pairs), '&')) && Holds(params, pairs) && '#' !in Query(pairs)
  {
    params := Params(Parts(pairs));
    ParamsHold(pairs, |pairs|);
    assert pairs[..|pairs|] == pairs;
    JoinClean(Parts(pairs), '#');
    SplitOfJoin(Parts(pairs), '&');
  }

  /** A query adds to what the link says without it exactly its pairs, the later of one key
      winning, except that the cipher keeps its place; a link that is refused without the
      query is refused with it. */
  lemma QueryIsRead(main: string, pairs: seq<Pair>, tail: string) returns (params: map<string, string>)
    requires '#' !in main && '?' !in main && pairs != [] && (tail == "" || tail[0] == '#')
    requires forall i :: 0 <= i < |pairs| ==> pairs[i].Valid()
    ensures Holds(params, pairs)
    ensures var link := (main + ("?" + Query(pairs))) + tail;
            match Parsed(main)
            case None => Parsed(link) == None
            case Some(r) =>
              && "method" in r.params
              && Parsed(link) == Some(r.(params := params["method" := r.params["method"]], fragment := if tail == "" then "" else tail[1..]))
  {
    params := QueryHolds(pairs);
    QuerySplits(main, Query(pairs), tail);
    NoQuery(main);
    FromMainParams(TrimSlash(main), map[], "", params, if tail == "" then "" else tail[1..]);
  }

  /** Parameters and fragment are carried through and play no part in what is accepted. */
  lemma FromMainParams(main: string, p: map<string, string>, f: string, q: map<string, string>, g: string)
    ensures match FromMain(main, p, f)
            case None => FromMain(main, q, g) == None
            case Some(r) => "method" in r.params && r.params == p["method" := r.params["method"]]
                            && FromMain(main, q, g) == Some(r.(params := q["method" := r.params["method"]], fragment := g))
  {}

  /** A slash behind the address is ignored. */
  lemma SlashIsIgnored(main: string, tail: string)
    requires '#' !in main && '?' !in main && main != "" && main[|main|-1] != '/' && IsTail(tail)
    ensures Parsed(main + "/" + tail) == Parsed(main + tail)
  {
    var slashed := main + "/";
    CutAtTail(main, tail);
    CutAtTail(slashed, tail);
    assert slashed[..|slashed|-1] == main;
    SameTail(main, tail);
    SameTail(slashed, tail);
  }

  /** Query and fragment are those of the tail alone. */
  lemma SameTail(main: string, tail: string)
    requires '#' !in main && '?' !in main && IsTail(tail)
    ensures QueryOf(main + tail) == QueryOf(tail) && After(main + tail, '#') == After(tail, '#')
  {
    var k := Index(tail, '#');
    var query, fragment := tail[..k], tail[k..];
    assert main + tail == (main + query) + fragment && tail == query + fragment;
    FragmentSplits(main + query, fragment);
    FragmentSplits(query, fragment);
    assert query == "" || query[0] == tail[0] == '?';
    SameQuery(main, query);
  }

  lemma SameQuery(main: string, query: string)
    requires '?' !in main && (query == "" || query[0] == '?')
    ensures '?' in main + query <==> '?' in query
    ensures After(main + query, '?') == After(query, '?')
  {
    if query == "" {
      assert main + query == main;
      UntilNone(main, '?');
    } else {
      assert main + query == main + ['?'] + query[1..] && query == "" + ['?'] + query[1..];
      UntilAfterAt(main, '?', query[1..]);
      UntilAfterAt("", '?', query[1..]);
    }
  }

  /** A record without a method is printed with `aes-256-gcm`, and read back with it. */
  lemma DefaultCipher(r: Link, fragment: string, escape: string -> string)
    requires "method" !in r.params || r.params["method"] == ""
    requires IsBytes(r.password) && 1 <= r.port <= 65535 && r.host != "" && !Delimited(r.host)
    ensures IsBytes(CipherOf(r))
    ensures var back := Parsed(Printed(r, fragment, escape)[|SCHEME|..]);
            SCHEME <= Printed(r, fragment, escape) && back.Some? && "method" in back.value.params && back.value.params["method"] == "aes-256-gcm"
  {
    CipherIsPlain();
    ShadowsocksRoundTrip(r, fragment, escape);
  }

  lemma CipherIsPlain()
    ensures ':' !in "aes-256-gcm" && IsBytes("aes-256-gcm")
  {}
}
