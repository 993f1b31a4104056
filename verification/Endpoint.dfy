/** Endpoint strings: the parser and its printer. */
module Endpoints {
  import opened Widths
  import opened Options
  import opened Text

  datatype Endpoint =
    | Quic(host: string, port: U16)
    | TcpTls(host: string, port: U16)
    | Unix(path: string)
    | Ssh(user: Option<string>, host: string, sshPort: Option<U16>)
    | Alias(name: string)

  datatype ParseError = EmptyAlias | NeedsHostPort | NeedsPath | EmptyEndpoint

  /** Slicing a string past its end, or inside a character, panics. */
  datatype Outcome<+T> = Ok(value: T) | Err(error: ParseError) | Panic

  // ----- numbers

  predicate IsDigit(c: char) {
    '0' as int <= c as int <= '9' as int
  }

  function Value(digits: string): nat
    requires forall c :: c in digits ==> IsDigit(c)
  {
    if digits == [] then 0
    else
      assert IsDigit(digits[|digits| - 1]) by { assert digits[|digits| - 1] in digits; }
      10 * Value(digits[..|digits| - 1]) + (digits[|digits| - 1] as int - '0' as int)
  }

  /** `str::parse::<u16>`: one `+` is allowed in front, then decimal digits. */
  function ParseU16(s: string): Option<U16> {
    var digits := if s != [] && s[0] == '+' then s[1..] else s;
    if digits != [] && (forall c :: c in digits ==> IsDigit(c)) && Value(digits) <= U16_MAX
    then Some(Value(digits)) else None
  }

  function Print16(n: nat): (s: string)
    ensures s != [] && forall c :: c in s ==> IsDigit(c)
  {
    (if n < 10 then [] else Print16(n / 10)) + [('0' as int + n % 10) as char]
  }

  lemma {:induction false} ValueOfPrint(n: nat)
    ensures Value(Print16(n)) == n
  {
    var s := Print16(n);
    if n < 10 {
      assert s[..|s| - 1] == [];
    } else {
      assert s[..|s| - 1] == Print16(n / 10);
      ValueOfPrint(n / 10);
    }
  }

  lemma PortRoundTrip(p: U16)
    ensures ParseU16(Print16(p)) == Some(p)
  {
    ValueOfPrint(p);
    assert Print16(p)[0] in Print16(p);
  }

  // ----- trimming

  function TrimStart(s: string): string {
    if s != [] && IsWhitespace(s[0]) then TrimStart(s[1..]) else s
  }

  function TrimEnd(s: string): (r: string)
    ensures r == [] || !IsWhitespace(r[|r| - 1])
  {
    if s != [] && IsWhitespace(s[|s| - 1]) then TrimEnd(s[..|s| - 1]) else s
  }

  function Trim(s: string): string {
    TrimEnd(TrimStart(s))
  }

  // ----- splitting

  /** `s` starts with `[` and has a `]` after it. */
  predicate Bracketed(s: string) {
    s != [] && s[0] == '[' && ']' in s[1..]
  }

  predicate IsAscii(c: char) {
    c as int < 0x80
  }

  /** `split_host_port`: `Ok(None)` for a missing or bad port. Two bytes are skipped after a
      bracketed host without looking at them. */
  function SplitHostPort(s: string): Outcome<Option<(string, U16)>> {
    if Bracketed(s) then
      var e := Find(s[1..], ']').value;
      if |s| < e + 3 || !IsAscii(s[e + 2]) then Panic
      else
        match ParseU16(s[e + 3..])
        case None => Ok(None)
        case Some(port) => Ok(Some((['['] + s[1..e + 1] + [']'], port)))
    else
      match FindLast(s, ':')
      case None => Ok(None)
      case Some(k) =>
        match ParseU16(s[k + 1..])
        case None => Ok(None)
        case Some(port) => if k == 0 then Ok(None) else Ok(Some((s[..k], port)))
  }

  /** `split_optional_port`. */
  function SplitOptionalPort(s: string): (string, Option<U16>) {
    match FindLast(s, ':')
    case None => (s, None)
    case Some(k) => if ParseU16(s[k + 1..]).Some? then (s[..k], ParseU16(s[k + 1..])) else (s, None)
  }

  /** `parse_ssh_authority`. */
  function ParseSsh(authority: string): Endpoint {
    match Find(authority, '@')
    case None =>
      var (host, port) := SplitOptionalPort(authority);
      Ssh(None, host, port)
    case Some(at) =>
      var (host, port) := SplitOptionalPort(authority[at + 1..]);
      Ssh(if at == 0 then None else Some(authority[..at]), host, port)
  }

  function WithHostPort(s: string, make: (string, U16) -> Endpoint): Outcome<Endpoint> {
    match SplitHostPort(s)
    case Panic => Panic
    case Err(e) => Err(e)
    case Ok(None) => Err(NeedsHostPort)
    case Ok(Some(hp)) => Ok(make(hp.0, hp.1))
  }

  const QUIC := "quic://"
  const TCP_TLS := "tcp+tls://"
  const UNIX := "unix://"
  const SSH := "ssh://"

  /** What `Endpoint::parse` does with the trimmed text. */
  function ParseTrimmed(s: string): Outcome<Endpoint> {
    if ['@'] <= s then
      if |s| == 1 then Err(EmptyAlias) else Ok(Alias(s[1..]))
    else if QUIC <= s then WithHostPort(s[|QUIC|..], (h: string, p: U16) => Quic(h, p))
    else if TCP_TLS <= s then WithHostPort(s[|TCP_TLS|..], (h: string, p: U16) => TcpTls(h, p))
    else if UNIX <= s then
      if |s| == |UNIX| then Err(NeedsPath) else Ok(Unix(s[|UNIX|..]))
    else if SSH <= s then Ok(ParseSsh(s[|SSH|..]))
    else
      match Find(s, '@')
      case Some(at) =>
        var (host, port) := SplitOptionalPort(s[at + 1..]);
        Ok(Ssh(Some(s[..at]), host, port))
      case None =>
        match SplitHostPort(s)
        case Panic => Panic
        case Err(e) => Err(e)
        case Ok(Some(hp)) => Ok(Quic(hp.0, hp.1))
        case Ok(None) => if s != [] then Ok(Alias(s)) else Err(EmptyEndpoint)
  }

  /** `Endpoint::parse`. */
  function Parse(s: string): Outcome<Endpoint> {
    ParseTrimmed(Trim(s))
  }

  /** `Display`. */
  function Print(e: Endpoint): string {
    match e
    case Quic(host, port) => QUIC + host + [':'] + Print16(port)
    case TcpTls(host, port) => TCP_TLS + host + [':'] + Print16(port)
    case Unix(path) => UNIX + path
    case Ssh(user, host, port) => SSH + Authority(user, host, port)
    case Alias(name) => ['@'] + name
  }

  function Authority(user: Option<string>, host: string, port: Option<U16>): string {
    (if user.Some? then user.value + ['@'] else []) + PrintHost(host, port)
  }

  function PrintHost(host: string, port: Option<U16>): string {
    host + (if port.Some? then [':'] + Print16(port.value) else [])
  }

  // ----- what parsing can return

  predicate EndsClean(s: string) {
    s == [] || !IsWhitespace(s[|s| - 1])
  }

  /** A host that `split_host_port` finds again: if bracketed, its first `]` is its last character. */
  predicate HostOk(h: string) {
    h != [] && (Bracketed(h) ==> Find(h[1..], ']').value == |h| - 2)
  }

  predicate WellFormed(e: Endpoint) {
    match e
    case Quic(host, _) => HostOk(host)
    case TcpTls(host, _) => HostOk(host)
    case Unix(path) => path != [] && EndsClean(path)
    case Ssh(user, host, port) =>
      && (user.Some? ==> user.value != [] && '@' !in user.value)
      && (port.None? ==> EndsClean(host) && SplitOptionalPort(host) == (host, None))
    case Alias(name) => name != [] && EndsClean(name)
  }

  lemma {:induction false} FindIn(s: string, t: string, c: char)
    ensures c in s ==> Find(s + t, c) == Find(s, c)
    ensures c !in s ==> Find(s + [c] + t, c) == Some(|s|)
  {
    if c in s {
      FindIs(s + t, c, Find(s, c).value);
    } else {
      FindIs(s + [c] + t, c, |s|);
    }
  }

  lemma {:induction false} FindLastIn(s: string, c: char, t: string)
    requires c !in t
    ensures FindLast(s + [c] + t, c) == Some(|s|)
  {
    FindLastIs(s + [c] + t, c, |s|);
  }

  lemma SplitHostPortImage(s: string)
    ensures var r := SplitHostPort(s); r.Ok? && r.value.Some? ==> HostOk(r.value.value.0)
  {
    if Bracketed(s) {
      var e := Find(s[1..], ']').value;
      var x := s[1..e + 1];
      assert x == s[1..][..e];
      var h := ['['] + x + [']'];
      assert h[1..] == x + [']'] + [];
      FindIn(x, [], ']');
    } else if FindLast(s, ':').Some? {
      var k := FindLast(s, ':').value;
      if k > 0 {
        assert forall c :: c in s[..k][1..] ==> c in s[1..] by {
          assert s[1..] == s[..k][1..] + s[k..];
        }
      }
    }
  }

  lemma SplitOptionalImage(s: string)
    requires EndsClean(s)
    ensures var (host, port) := SplitOptionalPort(s);
      port.None? ==> host == s && EndsClean(host) && SplitOptionalPort(host) == (host, None)
  {}

  /** Everything `parse` returns is well-formed. */
  lemma ParseImage(s: string)
    ensures Parse(s).Ok? ==> WellFormed(Parse(s).value)
  {
    hide SplitHostPort, ParseSsh, SplitOptionalPort, TrimStart, Find, HostOk, EndsClean;
    var t := Trim(s);
    assert EndsClean(t) by { TrimmedEndsClean(s); }
    if ['@'] <= t {
      SuffixClean(t, 1);
    } else if QUIC <= t {
      SplitHostPortImage(t[|QUIC|..]);
    } else if TCP_TLS <= t {
      SplitHostPortImage(t[|TCP_TLS|..]);
    } else if UNIX <= t {
      SuffixClean(t, |UNIX|);
    } else if SSH <= t {
      SuffixClean(t, |SSH|);
      SshImage(t[|SSH|..]);
    } else if Find(t, '@').Some? {
      UserImage(t);
    } else {
      SplitHostPortImage(t);
    }
  }

  lemma TrimmedEndsClean(s: string)
    ensures EndsClean(Trim(s))
  {}

  lemma SuffixClean(s: string, k: nat)
    requires EndsClean(s) && k <= |s|
    ensures EndsClean(s[k..])
  {}

  lemma UserImage(t: string)
    requires EndsClean(t) && !(['@'] <= t) && Find(t, '@').Some?
    ensures var at := Find(t, '@').value;
      var (host, port) := SplitOptionalPort(t[at + 1..]);
      WellFormed(Ssh(Some(t[..at]), host, port))
  {
    hide SplitOptionalPort, Find;
    SplitOptionalImage(t[Find(t, '@').value + 1..]);
  }

  lemma SshImage(a: string)
    requires EndsClean(a)
    ensures WellFormed(ParseSsh(a))
  {
    hide SplitOptionalPort, Find;
    if Find(a, '@').Some? { SplitOptionalImage(a[Find(a, '@').value + 1..]); } else { SplitOptionalImage(a); }
  }

  // ----- printing and parsing again

  lemma TrimNothing(s: string)
    requires s != [] && !IsWhitespace(s[0]) && EndsClean(s)
    ensures Trim(s) == s
  {}

  lemma HostPortAgain(host: string, port: U16)
    requires HostOk(host)
    ensures SplitHostPort(host + [':'] + Print16(port)) == Ok(Some((host, port)))
  {
    hide ParseU16, Print16, Find, FindLast;
    var d := Print16(port);
    var s := host + [':'] + d;
    PortRoundTrip(port);
    assert ':' !in d && ']' !in d;
    assert s[1..] == host[1..] + ([':'] + d);
    if Bracketed(host) {
      BracketedAgain(host, d);
    } else {
      assert !Bracketed(s);
      FindLastIn(host, ':', d);
      assert s[|host| + 1..] == d && s[..|host|] == host;
    }
  }

  lemma BracketedAgain(host: string, d: string)
    requires HostOk(host) && Bracketed(host)
    ensures var s := host + [':'] + d;
      var e := |host| - 2;
      && Bracketed(s) && Find(s[1..], ']') == Some(e)
      && s[e + 3..] == d && s[e + 2] == ':' && ['['] + s[1..e + 1] + [']'] == host
  {
    hide Find;
    var s, e := host + [':'] + d, |host| - 2;
    assert s[1..] == host[1..] + ([':'] + d);
    FindIn(host[1..], [':'] + d, ']');
    assert host[1..][e] == ']';
  }

  lemma OptionalPortAgain(host: string, port: Option<U16>)
    requires port.None? ==> SplitOptionalPort(host) == (host, None)
    ensures SplitOptionalPort(PrintHost(host, port)) == (host, port)
  {
    if port.Some? {
      var d := Print16(port.value);
      var s := PrintHost(host, port);
      PortRoundTrip(port.value);
      assert s == host + [':'] + d && ':' !in d;
      FindLastIn(host, ':', d);
      assert s[|host| + 1..] == d && s[..|host|] == host;
    } else {
      assert PrintHost(host, port) == host;
    }
  }

  lemma SshAgain(user: Option<string>, host: string, port: Option<U16>)
    requires WellFormed(Ssh(user, host, port))
    ensures ParseSsh(Authority(user, host, port)) == Ssh(user, host, port) <==> !(user.None? && '@' in host)
  {
    hide SplitOptionalPort, Print16, Find, PrintHost;
    var a, hp := Authority(user, host, port), PrintHost(host, port);
    OptionalPortAgain(host, port);
    if user.Some? {
      assert a == user.value + ['@'] + hp;
      FindIn(user.value, hp, '@');
      assert a[..|user.value|] == user.value && a[|user.value| + 1..] == hp;
    } else {
      assert a == hp;
      NoUserAgain(host, port);
    }
  }

  /** Without a user the first `@` of the host is taken for the end of one. */
  lemma NoUserAgain(host: string, port: Option<U16>)
    requires SplitOptionalPort(PrintHost(host, port)) == (host, port)
    ensures ParseSsh(PrintHost(host, port)) == Ssh(None, host, port) <==> '@' !in host
  {
    hide SplitOptionalPort, Print16, Find;
    var hp := PrintHost(host, port);
    assert hp == host + hp[|host|..] && '@' !in hp[|host|..];
    if '@' in host {
      FindIn(host, hp[|host|..], '@');
      if host[0] == '@' { ShorterHost(host, port); }
    }
  }

  /** Dropping the first character of a printed host cannot give the host back. */
  lemma ShorterHost(host: string, port: Option<U16>)
    requires host != []
    ensures SplitOptionalPort(PrintHost(host, port)[1..]) != (host, port)
  {
    var hp := PrintHost(host, port)[1..];
    if port.Some? {
      assert hp == PrintHost(host[1..], port);
      OptionalPortAgain(host[1..], port);
    }
  }

  lemma PrintTrimmed(e: Endpoint)
    requires WellFormed(e)
    ensures Trim(Print(e)) == Print(e)
  {
    var s := Print(e);
    if e.Quic? || e.TcpTls? || (e.Ssh? && e.sshPort.Some?) {
      var d := Print16(if e.Ssh? then e.sshPort.value else e.port);
      assert s[|s| - 1] == d[|d| - 1] && d[|d| - 1] in d;
    } else if e.Ssh? {
      if e.host != [] {
        assert s[|s| - 1] == e.host[|e.host| - 1];
      } else {
        assert s[|s| - 1] == if e.user.Some? then '@' else '/';
      }
    }
    TrimNothing(s);
  }

  /** Printing any endpoint that `parse` can return and parsing it again gives the same
      endpoint, exactly unless it is an SSH endpoint with no user whose host contains `@`. */
  lemma RoundTripIff(e: Endpoint)
    requires WellFormed(e)
    ensures Parse(Print(e)) == Ok(e) <==> !(e.Ssh? && e.user.None? && '@' in e.host)
  {
    hide Trim, SplitHostPort, ParseSsh, Print16, ParseU16, SplitOptionalPort;
    var s := Print(e);
    PrintTrimmed(e);
    match e
    case Quic(host, port) =>
      assert s[|QUIC|..] == host + [':'] + Print16(port) && s[0] == 'q';
      HostPortAgain(host, port);
    case TcpTls(host, port) =>
      assert s[|TCP_TLS|..] == host + [':'] + Print16(port) && s[0] == 't';
      HostPortAgain(host, port);
    case Unix(path) =>
      assert s[|UNIX|..] == path && s[0] == 'u';
    case Ssh(user, host, port) =>
      assert s[|SSH|..] == Authority(user, host, port) && s[0] == 's';
      SshAgain(user, host, port);
    case Alias(name) =>
      assert s[1..] == name;
  }

  /** For every input: what was parsed survives printing, unless it is that exception. */
  lemma ParsePrintParse(s: string)
    requires Parse(s).Ok?
    ensures var e := Parse(s).value; Parse(Print(e)) == Ok(e) <==> !(e.Ssh? && e.user.None? && '@' in e.host)
  {
    hide Parse;
    ParseImage(s);
    RoundTripIff(Parse(s).value);
  }

  // ----- when parsing panics

  /** The text handed to `split_host_port`, if any. */
  function HostPortText(t: string): Option<string> {
    if ['@'] <= t then None
    else if QUIC <= t then Some(t[|QUIC|..])
    else if TCP_TLS <= t then Some(t[|TCP_TLS|..])
    else if UNIX <= t || SSH <= t || '@' in t then None
    else Some(t)
  }

  /** A bracketed literal not followed by an ASCII character: the end of the text, say. */
  predicate DanglingBracket(s: string) {
    exists k :: 0 < k < |s| && s[0] == '[' && s[k] == ']' && ']' !in s[1..k] && (k + 1 == |s| || !IsAscii(s[k + 1]))
  }

  /** `parse` panics exactly on a bracketed host with no ASCII character after it. */
  lemma PanicsIff(s: string)
    ensures Parse(s).Panic? <==> HostPortText(Trim(s)).Some? && DanglingBracket(HostPortText(Trim(s)).value)
  {
    hide Trim, ParseU16, ParseSsh, SplitOptionalPort;
    var t := HostPortText(Trim(s));
    if t.Some? { BracketPanics(t.value); }
  }

  lemma BracketPanics(s: string)
    ensures SplitHostPort(s).Panic? <==> DanglingBracket(s)
  {
    hide ParseU16;
    if Bracketed(s) {
      var e := Find(s[1..], ']').value;
      assert s[e + 1] == ']' && forall i :: 0 < i <= e ==> s[i] == s[1..][i - 1] != ']';
      forall k | 0 < k < |s| && s[k] == ']' && ']' !in s[1..k] ensures k == e + 1 {
        assert forall i :: 0 < i < k ==> s[i] == s[1..k][i - 1] != ']';
      }
      assert ']' !in s[1..e + 1];
    } else if s != [] && s[0] == '[' {
      forall k | 0 < k < |s| ensures s[k] != ']' { assert s[k] == s[1..][k - 1]; }
    }
  }

  /** An IPv6 literal with no port does so. */
  lemma BareLiteralPanics()
    ensures Parse("[::1]").Panic?
  {
    var s := "[::1]";
    TrimNothing(s);
    assert s[4] == ']' && ']' !in s[1..4];
    assert DanglingBracket(s);
    PanicsIff(s);
  }

  /** The exception to the round trip: an empty user is dropped, and the next `@` then takes its place. */
  lemma UserlessHost()
    ensures Parse("ssh://@a@b") == Ok(Ssh(None, "a@b", None))
    ensures Parse(Print(Ssh(None, "a@b", None))) == Ok(Ssh(Some("a"), "b", None))
  {
    hide Trim, ParseTrimmed, ParseSsh;
    var s, t := "ssh://@a@b", "ssh://a@b";
    TrimNothing(s);
    TrimNothing(t);
    SshText("@a@b");
    SshText("a@b");
    assert s == SSH + "@a@b" && t == SSH + "a@b";
    AuthorityText();
    assert Print(Ssh(None, "a@b", None)) == t;
  }

  lemma AuthorityText()
    ensures ParseSsh("@a@b") == Ssh(None, "a@b", None)
    ensures ParseSsh("a@b") == Ssh(Some("a"), "b", None)
  {
    hide Find, FindLast, SplitOptionalPort;
    FindIs("@a@b", '@', 0);
    FindIs("a@b", '@', 1);
    assert "@a@b"[1..] == "a@b" && "a@b"[..1] == "a" && "a@b"[2..] == "b";
    NoPort("a@b");
    NoPort("b");
  }

  lemma NoPort(s: string)
    requires ':' !in s
    ensures SplitOptionalPort(s) == (s, None)
  {}

  lemma SshText(authority: string)
    ensures ParseTrimmed(SSH + authority) == Ok(ParseSsh(authority))
  {
    hide SplitHostPort, ParseSsh, WithHostPort;
    var s := SSH + authority;
    assert s[0] == 's' && s[|SSH|..] == authority;
  }

  // ----- the forms people type

  predicate AllWhitespace(s: string) {
    forall c :: c in s ==> IsWhitespace(c)
  }

  lemma {:induction false} StartSkips(pre: string, s: string)
    requires AllWhitespace(pre)
    ensures TrimStart(pre + s) == TrimStart(s)
  {
    if pre == [] {
      assert pre + s == s;
    } else {
      assert (pre + s)[0] == pre[0] && (pre + s)[1..] == pre[1..] + s;
      StartSkips(pre[1..], s);
    }
  }

  lemma {:induction false} EndSkips(s: string, post: string)
    requires AllWhitespace(post)
    ensures TrimEnd(s + post) == TrimEnd(s)
  {
    if post == [] {
      assert s + post == s;
    } else {
      var n := |post| - 1;
      assert (s + post)[..|s| + n] == s + post[..n] && (s + post)[|s| + n] == post[n];
      EndSkips(s, post[..n]);
    }
  }

  lemma {:induction false} StartKeeps(s: string, post: string)
    requires AllWhitespace(post)
    ensures TrimStart(s + post) == if TrimStart(s) == [] then [] else TrimStart(s) + post
  {
    if s == [] {
      assert s + post == post + [];
      StartSkips(post, []);
    } else if IsWhitespace(s[0]) {
      assert (s + post)[0] == s[0] && (s + post)[1..] == s[1..] + post;
      StartKeeps(s[1..], post);
    }
  }

  /** Whitespace around an endpoint changes nothing. */
  lemma WhitespaceIgnored(pre: string, s: string, post: string)
    requires AllWhitespace(pre) && AllWhitespace(post)
    ensures Parse(pre + s + post) == Parse(s)
  {
    hide ParseTrimmed, TrimStart, TrimEnd;
    assert pre + s + post == pre + (s + post);
    StartSkips(pre, s + post);
    StartKeeps(s, post);
    EndSkips(TrimStart(s), post);
  }

  /** Text that no prefix gives a meaning to. */
  predicate Unmarked(s: string) {
    && s != [] && !IsWhitespace(s[0]) && EndsClean(s)
    && s[0] != '@' && !("quic://" <= s) && !("tcp+tls://" <= s) && !("unix://" <= s) && !("ssh://" <= s)
  }

  /** A bare `host:port` means QUIC. */
  lemma BareHostPort(host: string, port: U16)
    requires HostOk(host) && '@' !in host && Unmarked(host + [':'] + Print16(port))
    ensures Parse(host + [':'] + Print16(port)) == Ok(Quic(host, port))
  {
    hide SplitHostPort, Trim, Print16;
    var s := host + [':'] + Print16(port);
    TrimNothing(s);
    HostPortAgain(host, port);
    DigitsOnly(port);
  }

  lemma DigitsOnly(port: U16)
    ensures '@' !in Print16(port)
  {
    PortRoundTrip(port);
  }

  /** `user@host`, with or without a port, means SSH as that user. */
  lemma BareUserHost(user: string, host: string, port: Option<U16>)
    requires user != [] && '@' !in user && (port.None? ==> SplitOptionalPort(host) == (host, None))
    requires Unmarked(user + ['@'] + PrintHost(host, port))
    ensures Parse(user + ['@'] + PrintHost(host, port)) == Ok(Ssh(Some(user), host, port))
  {
    hide SplitHostPort, Trim, PrintHost, SplitOptionalPort;
    var rest := PrintHost(host, port);
    var s := user + ['@'] + rest;
    TrimNothing(s);
    FindIs(s, '@', |user|);
    assert s[..|user|] == user && s[|user| + 1..] == rest;
    OptionalPortAgain(host, port);
  }

  /** Any other word is an alias. */
  lemma BareWord(s: string)
    requires Unmarked(s) && '@' !in s && ':' !in s && !Bracketed(s)
    ensures Parse(s) == Ok(Alias(s))
  {
    hide Trim;
    TrimNothing(s);
  }

  /** An endpoint, an alias or a socket path that is empty is refused, each as such. */
  lemma EmptyRefused()
    ensures Parse("") == Err(EmptyEndpoint) && Parse("@") == Err(EmptyAlias) && Parse("unix://") == Err(NeedsPath)
  {
    hide Trim, SplitHostPort;
    EmptyTrim();
    NoHostPort("");
    TrimNothing("@");
    TrimNothing("unix://");
    assert "unix://"[0] == 'u';
  }

  /** QUIC and TLS need a port. */
  lemma NoPortRefused(host: string)
    requires host != [] && ':' !in host && !Bracketed(host) && EndsClean(host)
    ensures Parse("quic://" + host) == Err(NeedsHostPort) && Parse("tcp+tls://" + host) == Err(NeedsHostPort)
  {
    hide Trim, SplitHostPort, ParseSsh;
    var q, t := "quic://" + host, "tcp+tls://" + host;
    NoHostPort(host);
    assert q[0] == 'q' && q[7..] == host && q[|q| - 1] == host[|host| - 1];
    assert t[0] == 't' && t[10..] == host && t[|t| - 1] == host[|host| - 1];
    TrimNothing(q);
    TrimNothing(t);
  }

  lemma EmptyTrim()
    ensures Trim("") == ""
  {}

  lemma NoHostPort(s: string)
    requires ':' !in s && !Bracketed(s)
    ensures SplitHostPort(s) == Ok(None)
  {}
}
