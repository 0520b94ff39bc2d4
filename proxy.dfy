/** Proxy settings of transcription/main.py: `get_proxy_config`
    (main.py:22-45) and the authenticated proxy URL handed to yt-dlp
    (main.py:79-84), whose credentials go through
    `urllib.parse.quote(..., safe='')`. */
module Proxy {
  import opened Wrappers
  import opened Text
  import opened Utf8

  /** The process environment: variable name to value. */
  type Env = map<string, string>

  /** `not os.getenv(name)`: the variable is missing (`None`) or empty. */
  predicate Unset(env: Env, name: string) {
    name !in env || env[name] == ""
  }

  /** The value of a variable, `""` when it is missing. */
  function Value(env: Env, name: string): string {
    if name in env then env[name] else ""
  }

  /** The four variables, in the order the error message lists them. */
  const ProxyVars: seq<string> := ["PROXY_USER", "PROXY_PASS", "PROXY_HOST", "PROXY_PORT"]

  /** The list comprehension of main.py:30-35: the names among `names`
      whose variable is missing or empty, in their order. */
  function MissingVars(env: Env, names: seq<string>): (r: seq<string>)
    ensures |r| <= |names|
  {
    if names == [] then []
    else (if Unset(env, names[0]) then [names[0]] else []) + MissingVars(env, names[1..])
  }

  /** A name is listed exactly when it is among `names` and unset. */
  lemma {:induction false} MissingVarsMembers(env: Env, names: seq<string>)
    ensures forall x :: x in MissingVars(env, names) <==> x in names && Unset(env, x)
  {
    if names != [] {
      MissingVarsMembers(env, names[1..]);
      assert names == [names[0]] + names[1..];
    }
  }

  /** The listing keeps the order of `names`: missing names of an earlier
      part come before those of a later part. */
  lemma {:induction false} MissingVarsAppend(env: Env, a: seq<string>, b: seq<string>)
    ensures MissingVars(env, a + b) == MissingVars(env, a) + MissingVars(env, b)
  {
    if a == [] {
      assert a + b == b;
    } else {
      MissingVarsAppend(env, a[1..], b);
      assert (a + b)[0] == a[0] && (a + b)[1..] == a[1..] + b;
      var h := if Unset(env, a[0]) then [a[0]] else [];
      assert MissingVars(env, a + b) == h + MissingVars(env, a[1..] + b);
      assert MissingVars(env, a) == h + MissingVars(env, a[1..]);
      assert h + (MissingVars(env, a[1..]) + MissingVars(env, b))
          == (h + MissingVars(env, a[1..])) + MissingVars(env, b);
    }
  }

  /** `', '.join(missing)` in the `ValueError` message. */
  function MissingMessage(missing: seq<string>): string {
    "Missing proxy environment variables: " + Join(missing, ", ")
  }

  /** What `get_proxy_config` returns: the proxy URL, user and password. */
  datatype ProxySettings = ProxySettings(url: string, user: string, password: string)

  /** `get_proxy_config`: the settings when all four variables are set and
      non-empty; otherwise the message of the `ValueError` it raises. */
  function GetProxyConfig(env: Env): (r: Result<ProxySettings, string>)
    ensures r.Failure? <==> exists k :: 0 <= k < |ProxyVars| && Unset(env, ProxyVars[k])
    ensures r.Failure? ==> r.error == MissingMessage(MissingVars(env, ProxyVars))
    ensures r.Success? ==>
      r.value.user == Value(env, "PROXY_USER") && r.value.password == Value(env, "PROXY_PASS")
      && r.value.url == "http://" + Value(env, "PROXY_HOST") + ":" + Value(env, "PROXY_PORT")
  {
    if Unset(env, "PROXY_USER") || Unset(env, "PROXY_PASS") || Unset(env, "PROXY_HOST") || Unset(env, "PROXY_PORT") then
      assert ProxyVars[0] == "PROXY_USER" && ProxyVars[1] == "PROXY_PASS";
      assert ProxyVars[2] == "PROXY_HOST" && ProxyVars[3] == "PROXY_PORT";
      Failure(MissingMessage(MissingVars(env, ProxyVars)))
    else
      var host, port := env["PROXY_HOST"], env["PROXY_PORT"];
      Success(ProxySettings("http://" + host + ":" + port, env["PROXY_USER"], env["PROXY_PASS"]))
  }

  /** The listing names each unset variable in the fixed order USER, PASS,
      HOST, PORT, and nothing else. */
  lemma MissingVarsInOrder(env: Env)
    ensures MissingVars(env, ProxyVars) ==
      (if Unset(env, "PROXY_USER") then ["PROXY_USER"] else [])
      + (if Unset(env, "PROXY_PASS") then ["PROXY_PASS"] else [])
      + (if Unset(env, "PROXY_HOST") then ["PROXY_HOST"] else [])
      + (if Unset(env, "PROXY_PORT") then ["PROXY_PORT"] else [])
  {
    var v := ProxyVars;
    assert v == [v[0]] + ([v[1]] + ([v[2]] + [v[3]]));
    MissingVarsAppend(env, [v[0]], [v[1]] + ([v[2]] + [v[3]]));
    MissingVarsAppend(env, [v[1]], [v[2]] + [v[3]]);
    MissingVarsAppend(env, [v[2]], [v[3]]);
  }

  /** With none of the variables set, the message names all four, in
      order. */
  lemma NothingSetMessage(env: Env)
    requires forall k :: 0 <= k < |ProxyVars| ==> ProxyVars[k] !in env
    ensures GetProxyConfig(env) == Failure(MissingMessage(ProxyVars))
  {
    var v := ProxyVars;
    assert Unset(env, v[0]) && Unset(env, v[1]) && Unset(env, v[2]) && Unset(env, v[3]);
    MissingVarsInOrder(env);
    assert MissingVars(env, v) == [v[0]] + [v[1]] + [v[2]] + [v[3]] == v;
  }

  // ---------------------------------------------------------------------
  // quote(s, safe='') and its inverse
  // ---------------------------------------------------------------------

  /** The unreserved characters of section 2.3 of RFC 3986, which `quote`
      never escapes: ASCII letters, digits, `-`, `.`, `_` and `~`. */
  predicate IsUnreservedChar(c: char) {
    'A' <= c <= 'Z' || 'a' <= c <= 'z' || '0' <= c <= '9' || c == '-' || c == '.' || c == '_' || c == '~'
  }

  /** The upper-case hexadecimal digit for `d`, as `quote` writes it. */
  function HexDigit(d: nat): (c: char)
    requires d < 16
    ensures IsUnreservedChar(c)
  {
    if d < 10 then ('0' as int + d) as char else ('A' as int + d - 10) as char
  }

  predicate IsHexDigit(c: char) {
    '0' <= c <= '9' || 'A' <= c <= 'F' || 'a' <= c <= 'f'
  }

  function HexValue(c: char): (d: nat)
    requires IsHexDigit(c)
    ensures d < 16
  {
    if c <= '9' then c as int - '0' as int
    else if c <= 'F' then c as int - 'A' as int + 10
    else c as int - 'a' as int + 10
  }

  lemma HexRoundTrip(d: nat)
    requires d < 16
    ensures IsHexDigit(HexDigit(d)) && HexValue(HexDigit(d)) == d
  {
  }

  /** One byte as `quote` writes it: an unreserved byte as its character,
      any other as `%` and two upper-case hex digits (section 2.1 of
      RFC 3986). */
  function QuoteByte(b: byte): (r: string)
    ensures forall k :: 0 <= k < |r| ==> IsUnreservedChar(r[k]) || r[k] == '%'
  {
    var c := b as int as char;
    if IsUnreservedChar(c) then [c] else ['%', HexDigit(b as int / 16), HexDigit(b as int % 16)]
  }

  function QuoteBytes(bs: seq<byte>): (r: string)
    ensures forall k :: 0 <= k < |r| ==> IsUnreservedChar(r[k]) || r[k] == '%'
  {
    if bs == [] then [] else QuoteByte(bs[0]) + QuoteBytes(bs[1..])
  }

  /** `urllib.parse.quote(s, safe='')`: encode as UTF-8, then escape every
      byte outside the unreserved set. Nothing but unreserved characters
      and `%` is left, so no `:`, `@` or `/` can reach the URL. */
  function Quote(s: string): (r: string)
    ensures forall k :: 0 <= k < |r| ==> IsUnreservedChar(r[k]) || r[k] == '%'
    ensures ':' !in r && '@' !in r && '/' !in r
  {
    QuoteBytes(Encode(s))
  }

  /** Percent-decoding as a strict reference: an unreserved character
      stands for its byte, `%` and two hex digits for the byte they spell;
      anything else is rejected. */
  function PercentDecode(s: string): Option<seq<byte>>
    decreases |s|
  {
    if s == [] then Some([])
    else if s[0] == '%' then
      if |s| >= 3 && IsHexDigit(s[1]) && IsHexDigit(s[2]) then
        Prepend((HexValue(s[1]) * 16 + HexValue(s[2])) as byte, PercentDecode(s[3..]))
      else None
    else if IsUnreservedChar(s[0]) then Prepend(s[0] as int as byte, PercentDecode(s[1..]))
    else None
  }

  function Prepend(b: byte, r: Option<seq<byte>>): Option<seq<byte>> {
    match r
    case None => None
    case Some(bs) => Some([b] + bs)
  }

  /** The escape of one byte decodes back to it, whatever follows. */
  lemma PercentDecodeByte(b: byte, t: string)
    ensures PercentDecode(QuoteByte(b) + t) == Prepend(b, PercentDecode(t))
  {
    var q := QuoteByte(b) + t;
    var c := b as int as char;
    if IsUnreservedChar(c) {
      assert q[1..] == t;
    } else {
      HexRoundTrip(b as int / 16);
      HexRoundTrip(b as int % 16);
      assert q[3..] == t;
    }
  }

  lemma {:induction false} PercentDecodeQuoteBytes(bs: seq<byte>)
    ensures PercentDecode(QuoteBytes(bs)) == Some(bs)
  {
    if bs != [] {
      PercentDecodeByte(bs[0], QuoteBytes(bs[1..]));
      PercentDecodeQuoteBytes(bs[1..]);
      assert bs == [bs[0]] + bs[1..];
    }
  }

  /** `urllib.parse.unquote` on the strict reference decoder: percent-decode,
      then decode the bytes as UTF-8. */
  function Unquote(s: string): Option<string> {
    match PercentDecode(s)
    case None => None
    case Some(bs) => Decode(bs)
  }

  /** Every credential comes back from its quoted form unchanged. */
  lemma UnquoteQuote(s: string)
    ensures Unquote(Quote(s)) == Some(s)
  {
    PercentDecodeQuoteBytes(Encode(s));
    DecodeEncode(s);
  }

  /** A credential of unreserved ASCII characters is not changed by
      `quote`. */
  lemma {:induction false} QuoteUnreserved(s: string)
    requires forall k :: 0 <= k < |s| ==> IsUnreservedChar(s[k])
    ensures Quote(s) == s
  {
    if s != [] {
      QuoteUnreserved(s[1..]);
      assert Encode(s) == EncodeChar(s[0]) + Encode(s[1..]);
      assert Encode(s) == [s[0] as int as byte] + Encode(s[1..]);
      assert Encode(s)[1..] == Encode(s[1..]);
      assert s == [s[0]] + s[1..];
    }
  }

  // ---------------------------------------------------------------------
  // The authenticated proxy URL (main.py:79-84)
  // ---------------------------------------------------------------------

  /** `f"http://{quote(user)}:{quote(pass)}@{host}:{port}"`. */
  function AuthProxyUrl(user: string, password: string, host: string, port: string): string {
    "http://" + Quote(user) + ":" + Quote(password) + "@" + host + ":" + port
  }

  /** The index of the first `c` in `s`, if any. */
  function FirstIndex(s: string, c: char): (r: Option<nat>)
    ensures r.Some? ==> r.value < |s| && s[r.value] == c && c !in s[..r.value]
    ensures r.None? ==> c !in s
  {
    if s == [] then None
    else if s[0] == c then Some(0)
    else
      match FirstIndex(s[1..], c)
      case None => None
      case Some(i) =>
        assert s[..i + 1] == [s[0]] + s[1..][..i];
        Some(i + 1)
  }

  lemma {:induction false} FirstIndexAt(a: string, c: char, b: string)
    requires c !in a
    ensures FirstIndex(a + [c] + b, c) == Some(|a|)
  {
    var s := a + [c] + b;
    if a != [] {
      assert s[0] == a[0];
      assert s[1..] == a[1..] + [c] + b;
      FirstIndexAt(a[1..], c, b);
    }
  }

  /** Reading an authenticated URL back: after `http://`, the userinfo runs
      to the first `@`, and the rest is the host and port. */
  function ParseAuthUrl(url: string): Option<(string, string, string)> {
    if !("http://" <= url) then None
    else
      var rest := url[7..];
      match FirstIndex(rest, '@')
      case None => None
      case Some(at) =>
        match ParseUserInfo(rest[..at])
        case None => None
        case Some((user, password)) => Some((user, password, rest[at + 1..]))
  }

  /** The userinfo splits at its first `:`; both halves are unquoted. */
  function ParseUserInfo(info: string): Option<(string, string)> {
    match FirstIndex(info, ':')
    case None => None
    case Some(colon) =>
      match (Unquote(info[..colon]), Unquote(info[colon + 1..]))
      case (Some(user), Some(password)) => Some((user, password))
      case _ => None
  }

  /** Quoted credentials read back as themselves. */
  lemma ParseQuotedUserInfo(user: string, password: string)
    ensures ParseUserInfo(Quote(user) + [':'] + Quote(password)) == Some((user, password))
  {
    var qu, qp := Quote(user), Quote(password);
    var info := qu + [':'] + qp;
    FirstIndexAt(qu, ':', qp);
    assert info[..|qu|] == qu && info[|qu| + 1..] == qp;
    UnquoteQuote(user);
    UnquoteQuote(password);
  }

  /** Whatever the credentials hold (`:`, `@`, `/`, non-ASCII text), the
      authenticated URL reads back as exactly the user, the password and
      `host:port`. */
  lemma ParseAuthProxyUrl(user: string, password: string, host: string, port: string)
    ensures ParseAuthUrl(AuthProxyUrl(user, password, host, port)) == Some((user, password, host + ":" + port))
  {
    var info := Quote(user) + [':'] + Quote(password);
    var hp := host + ":" + port;
    assert AuthProxyUrl(user, password, host, port) == "http://" + (info + ['@'] + hp);
    ParseQuotedUserInfo(user, password);
    ParseAuthUrlAt(info, hp);
  }

  /** The first `@` after the scheme ends the userinfo. */
  lemma ParseAuthUrlAt(info: string, hp: string)
    requires '@' !in info
    ensures ParseAuthUrl("http://" + (info + ['@'] + hp)) ==
      match ParseUserInfo(info)
      case None => None
      case Some((user, password)) => Some((user, password, hp))
  {
    var rest := info + ['@'] + hp;
    var url := "http://" + rest;
    assert "http://" <= url && url[7..] == rest;
    FirstIndexAt(info, '@', hp);
    assert rest[..|info|] == info;
    assert rest[|info| + 1..] == hp;
  }

  /** The URL given to yt-dlp is the configured proxy URL with the quoted
      credentials put in front of the host. */
  lemma AuthUrlExtendsConfigUrl(env: Env)
    requires GetProxyConfig(env).Success?
    ensures var cfg := GetProxyConfig(env).value;
      AuthProxyUrl(cfg.user, cfg.password, Value(env, "PROXY_HOST"), Value(env, "PROXY_PORT"))
      == "http://" + Quote(cfg.user) + ":" + Quote(cfg.password) + "@" + cfg.url[7..]
  {
    var cfg := GetProxyConfig(env).value;
    assert cfg.url[7..] == Value(env, "PROXY_HOST") + ":" + Value(env, "PROXY_PORT");
  }
}
