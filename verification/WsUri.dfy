/** The URI check of the API command and the URI splitter of the client, and their agreement. */
module WsUri {
  import opened Bytes

  const MAX_WS_URI: nat := 4096
  const INT_MAX: int := 0x7FFF_FFFF

  // ---- What a WebSocket URI is made of ----

  /** `digits` is what stands between the colon and the path, if there is a colon. */
  datatype Parts = Parts(tls: bool, host: string, digits: Option<string>, path: string)

  predicate IsDigit(c: char) {
    '0' <= c <= '9'
  }

  /** A letter or digit of ASCII, a hyphen, a dot or an underscore. */
  predicate HostChar(c: char) {
    IsDigit(c) || 'a' <= c <= 'z' || 'A' <= c <= 'Z' || c == '-' || c == '.' || c == '_'
  }

  ghost predicate All(s: string, test: char -> bool) {
    forall i :: 0 <= i < |s| ==> test(s[i])
  }

  ghost predicate WellFormed(p: Parts) {
    && p.host != "" && All(p.host, HostChar)
    && (p.digits.Some? ==> All(p.digits.value, IsDigit))
    && (p.path != "" ==> p.path[0] == '/')
  }

  function Scheme(tls: bool): string {
    if tls then "wss://" else "ws://"
  }

  function Tail(p: Parts): string {
    (if p.digits.Some? then ":" + p.digits.value else "") + p.path
  }

  function Recompose(p: Parts): string {
    Scheme(p.tls) + (p.host + Tail(p))
  }

  /** A URI the check is to accept. */
  ghost predicate Valid(url: string) {
    exists p :: WellFormed(p) && Recompose(p) == url
  }

  ghost predicate NoNul(s: string) {
    forall i :: 0 <= i < |s| ==> s[i] != '\0'
  }

  // ---- Finding the parts ----

  /** The index of the first character that stops the scan, or the length. */
  function First(s: string, stop: char -> bool): (n: nat)
    ensures n <= |s|
    ensures forall i :: 0 <= i < n ==> !stop(s[i])
    ensures n < |s| ==> stop(s[n])
  {
    if s == "" || stop(s[0]) then 0 else First(s[1..], stop) + 1
  }

  lemma FirstIs(s: string, stop: char -> bool, n: nat)
    requires n <= |s| && (forall i :: 0 <= i < n ==> !stop(s[i])) && (n < |s| ==> stop(s[n]))
    ensures First(s, stop) == n
  {}

  predicate Slash(c: char) { c == '/' }
  predicate Colon(c: char) { c == ':' }
  predicate EndsHost(c: char) { c == ':' || c == '/' }

  /** The parts of what follows the scheme, as the check scans them. */
  function PartsOf(tls: bool, t: string): Parts {
    var n := First(t, EndsHost);
    if n < |t| && t[n] == ':' then
      var m := First(t[n + 1..], Slash);
      Parts(tls, t[..n], Some(t[n + 1..][..m]), t[n + 1..][m..])
    else Parts(tls, t[..n], None, t[n..])
  }

  lemma Split(t: string, n: nat)
    requires n <= |t|
    ensures t == t[..n] + t[n..]
    ensures n < |t| ==> t[n..] == [t[n]] + t[n + 1..]
  {}

  /** The parts found are all there is. */
  lemma PartsJoin(tls: bool, t: string)
    ensures PartsOf(tls, t).host + Tail(PartsOf(tls, t)) == t
    ensures PartsOf(tls, t).path != "" ==> PartsOf(tls, t).path[0] == '/'
  {
    var p := PartsOf(tls, t);
    var n := First(t, EndsHost);
    Split(t, n);
    if n < |t| && t[n] == ':' {
      var u := t[n + 1..];
      var m := First(u, Slash);
      Split(u, m);
      Assoc([':'], u[..m], u[m..]);
      assert Tail(p) == t[n..];
    } else {
      assert Tail(p) == p.path;
    }
  }

  lemma Front(a: string, b: string)
    ensures (a + b)[..|a|] == a && (a + b)[|a|..] == b
    ensures forall i :: 0 <= i < |a| ==> (a + b)[i] == a[i]
    ensures b != "" ==> |a| < |a + b| && (a + b)[|a|] == b[0] && (a + b)[|a| + 1..] == b[1..]
    ensures b == "" ==> |a + b| == |a|
  {}

  lemma DigitsUnique(digits: string, path: string)
    requires All(digits, IsDigit) && (path != "" ==> path[0] == '/')
    ensures var u := digits + path;
            First(u, Slash) == |digits| && u[..|digits|] == digits && u[|digits|..] == path
  {
    Front(digits, path);
    assert forall i :: 0 <= i < |digits| ==> IsDigit(digits[i]);
    FirstIs(digits + path, Slash, |digits|);
  }

  lemma HostUnique(host: string, tail: string)
    requires All(host, HostChar) && (tail != "" ==> EndsHost(tail[0]))
    ensures First(host + tail, EndsHost) == |host|
  {
    Front(host, tail);
    assert forall i :: 0 <= i < |host| ==> HostChar(host[i]);
    FirstIs(host + tail, EndsHost, |host|);
  }

  /** The parts of a well-formed URI are the ones found. */
  lemma PartsUnique(p: Parts)
    requires WellFormed(p)
    ensures PartsOf(p.tls, p.host + Tail(p)) == p
  {
    Front(p.host, Tail(p));
    if p.digits.Some? {
      var u := p.digits.value + p.path;
      Assoc([':'], p.digits.value, p.path);
      assert Tail(p) == [':'] + u;
      Front([':'], u);
      DigitsUnique(p.digits.value, p.path);
    } else {
      assert Tail(p) == p.path;
    }
    HostUnique(p.host, Tail(p));
  }

  // ---- The check ----

  function SchemeOf(url: string): (tls: Option<bool>)
    ensures tls.Some? ==> Scheme(tls.value) <= url
  {
    if "ws://" <= url then Some(false) else if "wss://" <= url then Some(true) else None
  }

  function AfterScheme(url: string, tls: bool): string
    requires Scheme(tls) <= url
  {
    url[|Scheme(tls)|..]
  }

  lemma SchemeFound(tls: bool, t: string)
    ensures SchemeOf(Scheme(tls) + t) == Some(tls)
    ensures AfterScheme(Scheme(tls) + t, tls) == t
    ensures tls <==> "wss://" <= Scheme(tls) + t
  {
    var url := Scheme(tls) + t;
    if tls {
      assert url[2] == 's' && url[..6] == "wss://";
    } else {
      assert url[..5] == "ws://" && url[2] == ':';
    }
  }

  /** The characters found where they must be. */
  ghost predicate Good(p: Parts) {
    p.host != "" && All(p.host, HostChar) && (p.digits.Some? ==> All(p.digits.value, IsDigit))
  }

  lemma SchemeJoin(url: string, tls: bool)
    requires Scheme(tls) <= url
    ensures Scheme(tls) + AfterScheme(url, tls) == url
  {}

  lemma ValidIff(url: string)
    ensures Valid(url) <==>
            && SchemeOf(url).Some?
            && Good(PartsOf(SchemeOf(url).value, AfterScheme(url, SchemeOf(url).value)))
  {
    if SchemeOf(url).Some? {
      var tls := SchemeOf(url).value;
      var p := PartsOf(tls, AfterScheme(url, tls));
      PartsJoin(tls, AfterScheme(url, tls));
      SchemeJoin(url, tls);
      assert Good(p) ==> WellFormed(p) && Recompose(p) == url;
    }
    if Valid(url) {
      var p :| WellFormed(p) && Recompose(p) == url;
      SchemeFound(p.tls, p.host + Tail(p));
      PartsUnique(p);
    }
  }

  /** The ASCII codes of letters, digits, the hyphen, the dot and the underscore. */
  predicate IsHostCode(x: int) {
    65 <= x <= 90 || 97 <= x <= 122 || 48 <= x <= 57 || x == 45 || x == 46 || x == 95
  }

  /** A scheme and a name with no port and no path is accepted exactly if the name is not empty and
      of these characters. */
  lemma AcceptsHost(tls: bool, name: string)
    requires ':' !in name && '/' !in name
    ensures Valid((if tls then "wss://" else "ws://") + name)
       <==> name != "" && forall i :: 0 <= i < |name| ==> IsHostCode(name[i] as int)
  {
    SchemeFound(tls, name);
    ValidIff(Scheme(tls) + name);
    assert forall i :: 0 <= i < |name| ==> name[i] in name;
    FirstIs(name, EndsHost, |name|);
    assert name[..|name|] == name;
    assert forall i :: 0 <= i < |name| ==> (HostChar(name[i]) <==> IsHostCode(name[i] as int));
  }

  /** s[k], the terminator included. */
  function At(s: string, k: nat): char
    requires k <= |s|
  {
    if k == |s| then '\0' else s[k]
  }

  lemma BadCharacter(t: string, stop: char -> bool, test: char -> bool, k: nat)
    requires k < |t| && (forall i :: 0 <= i <= k ==> !stop(t[i])) && !test(t[k])
    ensures !All(t[..First(t, stop)], test)
  {
    var n := First(t, stop);
    assert k < n;
    assert t[..n][k] == t[k];
  }

  /** The first loop: hostEnd moves to a colon, a slash or the end, unless a character is bad. */
  method ScanHost(t: string) returns (good: bool, hostEnd: nat)
    requires NoNul(t)
    ensures good <==> All(t[..First(t, EndsHost)], HostChar)
    ensures good ==> hostEnd == First(t, EndsHost)
  {
    hostEnd := 0;
    while At(t, hostEnd) != '\0' && t[hostEnd] != ':' && t[hostEnd] != '/'
      invariant hostEnd <= |t|
      invariant forall i :: 0 <= i < hostEnd ==> !EndsHost(t[i]) && HostChar(t[i])
      decreases |t| - hostEnd
    {
      if !HostChar(t[hostEnd]) {
        BadCharacter(t, EndsHost, HostChar, hostEnd);
        return false, hostEnd;
      }
      hostEnd := hostEnd + 1;
    }
    FirstIs(t, EndsHost, hostEnd);
    return true, hostEnd;
  }

  /** The second loop: portStart moves to a slash or the end, unless a character is no digit. */
  method ScanPort(u: string) returns (good: bool)
    requires NoNul(u)
    ensures good <==> All(u[..First(u, Slash)], IsDigit)
  {
    var portStart := 0;
    while At(u, portStart) != '\0' && u[portStart] != '/'
      invariant portStart <= |u|
      invariant forall i :: 0 <= i < portStart ==> !Slash(u[i]) && IsDigit(u[i])
      decreases |u| - portStart
    {
      if !IsDigit(u[portStart]) {
        BadCharacter(u, Slash, IsDigit, portStart);
        return false;
      }
      portStart := portStart + 1;
    }
    FirstIs(u, Slash, portStart);
    return true;
  }

  /** The contents of a buffer of MAX_WS_URI characters after the copy. */
  ghost predicate Copied(buffer: seq<char>, url: string) {
    && |buffer| == MAX_WS_URI
    && forall k :: 0 <= k < MAX_WS_URI ==> buffer[k] == if k < |url| && k < MAX_WS_URI - 1 then url[k] else '\0'
  }

  /** strncpy: n characters, zeros once the source has ended. */
  method StrNCpy(dst: array<char>, src: string, n: nat)
    requires n <= dst.Length
    modifies dst
    ensures forall k :: 0 <= k < dst.Length ==>
              dst[k] == if k < n then (if k < |src| then src[k] else '\0') else old(dst[k])
  {
    for i := 0 to n
      invariant forall k :: 0 <= k < dst.Length ==>
                  dst[k] == if k < i then (if k < |src| then src[k] else '\0') else old(dst[k])
    {
      dst[i] := if i < |src| then src[i] else '\0';
    }
  }

  /** The part of validate_ws_uri between the scheme and the copy. */
  method CheckRest(tls: bool, hostStart: string) returns (valid: bool)
    requires NoNul(hostStart)
    ensures valid <==> Good(PartsOf(tls, hostStart))
  {
    var hostEnd;
    valid, hostEnd := ScanHost(hostStart);
    if !valid || hostEnd == 0 {
      return false;
    }
    if At(hostStart, hostEnd) == ':' {
      valid := ScanPort(hostStart[hostEnd + 1..]);
    }
  }

  /** validate_ws_uri: accepts exactly the well-formed URIs, and then copies what fits. */
  method ValidateWsUri(url: string, wsUri: array<char>) returns (valid: bool)
    requires NoNul(url) && wsUri.Length == MAX_WS_URI
    modifies wsUri
    ensures valid <==> Valid(url)
    ensures if valid then Copied(wsUri[..], url) else wsUri[..] == old(wsUri[..])
  {
    ValidIff(url);
    var tls := SchemeOf(url);
    if tls.None? {
      return false;
    }
    valid := CheckRest(tls.value, AfterScheme(url, tls.value));
    if valid {
      StrNCpy(wsUri, url, MAX_WS_URI - 1);
      wsUri[MAX_WS_URI - 1] := '\0';
    }
  }

  predicate IsNul(c: char) { c == '\0' }

  /** The string a buffer holds: what comes before the terminator. */
  function CString(buffer: seq<char>): string {
    buffer[..First(buffer, IsNul)]
  }

  /** The buffer holds the whole URI exactly if the URI is shorter than the buffer; otherwise it
      is cut. */
  lemma CopyIsWhole(buffer: seq<char>, url: string)
    requires NoNul(url) && Copied(buffer, url)
    ensures CString(buffer) <= url
    ensures CString(buffer) == url <==> |url| < 4096
  {
    var n := if |url| < MAX_WS_URI then |url| else MAX_WS_URI - 1;
    FirstIs(buffer, IsNul, n);
    assert buffer[..n] == url[..n];
  }

  // ---- The splitter ----

  function Value(digits: string): nat
    requires All(digits, IsDigit)
  {
    if digits == "" then 0 else Value(digits[..|digits| - 1]) * 10 + (digits[|digits| - 1] as int - '0' as int)
  }

  predicate NotSpace(c: char) {
    !(c == ' ' || '\t' <= c <= '\r')
  }

  predicate NotDigit(c: char) { !IsDigit(c) }

  function DigitRun(s: string): (d: string)
    ensures All(d, IsDigit)
  {
    s[..First(s, NotDigit)]
  }

  /** atoi; `outside` is what it gives for a number that does not fit an int. */
  function Atoi(s: string, outside: int): int {
    var t := s[First(s, NotSpace)..];
    var negative := t != "" && t[0] == '-';
    var u := if negative || (t != "" && t[0] == '+') then t[1..] else t;
    var v: int := if negative then 0 - Value(DigitRun(u)) else Value(DigitRun(u));
    if -INT_MAX - 1 <= v <= INT_MAX then v else outside
  }

  datatype Location = Location(tls: bool, host: string, port: int, path: string)

  function DefaultPort(tls: bool): int {
    if tls then 443 else 80
  }

  function Rooted(path: string): string {
    if path == "" then "/" else path
  }

  /** What setUrl makes of what follows the scheme. */
  function Locate(tls: bool, start: string, outside: int): Location {
    var slash := First(start, Slash);
    var colon := First(start, Colon);
    if colon < slash then
      Location(tls, start[..colon], Atoi(start[colon + 1..], outside), Rooted(start[slash..]))
    else Location(tls, start[..slash], DefaultPort(tls), Rooted(start[slash..]))
  }

  class Endpoint {
    var url: string
    var host: string
    var port: int
    var path: string
    var useTls: bool

    constructor ()
      ensures port == 0 && !useTls && url == host == path == ""
    {
      url, host, port, path, useTls := "", "", 0, "", false;
    }

    /** setUrl; a URL of another scheme is stored and changes nothing else. */
    method SetUrl(url: string, outside: int)
      modifies this
      ensures this.url == url
      ensures match SchemeOf(url)
              case None => unchanged(this`host, this`port, this`path, this`useTls)
              case Some(tls) =>
                Location(useTls, host, port, path) == Locate(tls, CString(AfterScheme(url, tls)), outside)
    {
      this.url := url;
      var tls := SchemeOf(url);
      if tls.Some? {
        useTls := tls.value;
        port := DefaultPort(useTls);
        Divide(CString(AfterScheme(url, useTls)), outside);
      }
    }

    /** The part of setUrl after the scheme, `slash` and `colon` being null where they are the
        length. */
    method Divide(start: string, outside: int)
      requires port == DefaultPort(useTls)
      modifies this`host, this`port, this`path
      ensures Location(useTls, host, port, path) == Locate(useTls, start, outside)
    {
      var slash := First(start, Slash);
      var colon := First(start, Colon);
      if colon < |start| && (slash == |start| || colon < slash) {
        host := start[..colon];
        port := Atoi(start[colon + 1..], outside);
        if slash < |start| {
          path := start[slash..];
        } else {
          path := "";
        }
      } else {
        if slash < |start| {
          host := start[..slash];
          path := start[slash..];
        } else {
          host := start;
          path := "";
        }
      }
      if path == "" {
        path := "/";
      }
    }
  }

  // ---- Agreement ----

  /** The port a URI names. */
  function PortOf(p: Parts, outside: int): int
    requires p.digits.Some? ==> All(p.digits.value, IsDigit)
  {
    if p.digits.None? then DefaultPort(p.tls)
    else if Value(p.digits.value) <= INT_MAX then Value(p.digits.value) else outside
  }

  /** Without space or sign in front, atoi reads the digits that come first. */
  lemma AtoiPlain(s: string, outside: int)
    requires s != "" ==> NotSpace(s[0]) && s[0] != '-' && s[0] != '+'
    ensures Atoi(s, outside) == if Value(DigitRun(s)) <= INT_MAX then Value(DigitRun(s)) else outside
  {
    FirstIs(s, NotSpace, 0);
    assert s[0..] == s;
  }

  lemma DigitRunIs(digits: string, path: string)
    requires All(digits, IsDigit) && (path != "" ==> path[0] == '/')
    ensures DigitRun(digits + path) == digits
  {
    Front(digits, path);
    assert forall i :: 0 <= i < |digits| ==> IsDigit(digits[i]);
    FirstIs(digits + path, NotDigit, |digits|);
  }

  /** A digit run that ends in a path or the end is read whole. */
  lemma AtoiReads(digits: string, path: string, outside: int)
    requires All(digits, IsDigit) && (path != "" ==> path[0] == '/')
    ensures Atoi(digits + path, outside) == if Value(digits) <= INT_MAX then Value(digits) else outside
  {
    Front(digits, path);
    assert digits != "" ==> (digits + path)[0] == digits[0] && IsDigit(digits[0]);
    DigitRunIs(digits, path);
    AtoiPlain(digits + path, outside);
  }

  /** Where strchr finds the colon and the slash after a host. */
  lemma HostHasNeither(host: string, tail: string)
    requires All(host, HostChar)
    ensures First(host + tail, Colon) >= |host| && First(host + tail, Slash) >= |host|
    ensures tail != "" && tail[0] == ':' ==> First(host + tail, Colon) == |host|
    ensures tail != "" && tail[0] == '/' ==> First(host + tail, Slash) == |host|
    ensures tail == "" ==> First(host + tail, Colon) == First(host + tail, Slash) == |host|
  {
    Front(host, tail);
    assert forall i :: 0 <= i < |host| ==> HostChar(host[i]);
  }

  lemma SlashAfterDigits(host: string, digits: string, path: string)
    requires All(host, HostChar) && All(digits, IsDigit) && (path != "" ==> path[0] == '/')
    ensures var start := host + ([':'] + (digits + path));
            var slash := First(start, Slash);
            slash == |host| + 1 + |digits| && start[slash..] == path && start[|host| + 1..] == digits + path
  {
    var start := host + ([':'] + (digits + path));
    Front(host, [':'] + (digits + path));
    Front(digits, path);
    assert forall i :: 0 <= i < |host| ==> start[i] == host[i] && HostChar(host[i]);
    assert forall i :: |host| < i < |host| + 1 + |digits| ==> start[i] == digits[i - |host| - 1] && IsDigit(start[i]);
    var slash := |host| + 1 + |digits|;
    assert start[slash..] == path;
    assert start[|host| + 1..] == digits + path;
    assert slash < |start| ==> start[slash] == path[0];
    FirstIs(start, Slash, slash);
  }

  /** The splitter finds the parts the check found. */
  lemma LocateParts(p: Parts, outside: int)
    requires WellFormed(p)
    ensures Locate(p.tls, p.host + Tail(p), outside) == Location(p.tls, p.host, PortOf(p, outside), Rooted(p.path))
  {
    Front(p.host, Tail(p));
    if p.digits.Some? {
      Assoc([':'], p.digits.value, p.path);
      assert Tail(p) == [':'] + (p.digits.value + p.path);
      SlashAfterDigits(p.host, p.digits.value, p.path);
      HostHasNeither(p.host, Tail(p));
      AtoiReads(p.digits.value, p.path, outside);
    } else {
      assert Tail(p) == p.path;
      HostHasNeither(p.host, Tail(p));
    }
  }

  /** The decimal digits of a number. */
  function Decimal(n: nat): (s: string)
    ensures s != ""
  {
    if n < 10 then [n as char + '0'] else Decimal(n / 10) + [(n % 10) as char + '0']
  }

  lemma DigitChar(d: nat)
    requires d < 10
    ensures IsDigit(d as char + '0') && (d as char + '0') as int - '0' as int == d
  {}

  lemma {:induction false} ValueOfDecimal(n: nat)
    ensures All(Decimal(n), IsDigit) && Value(Decimal(n)) == n
  {
    var s := Decimal(n);
    DigitChar(n % 10);
    if n >= 10 {
      ValueOfDecimal(n / 10);
      assert s[..|s| - 1] == Decimal(n / 10);
      assert forall i :: 0 <= i < |s| - 1 ==> s[i] == Decimal(n / 10)[i];
    } else {
      assert s[..0] == "";
    }
  }

  /** A port given in decimal is the port setUrl stores. */
  lemma LocatesPort(tls: bool, host: string, port: nat, path: string, outside: int)
    requires host != "" && All(host, HostChar) && port <= INT_MAX && (path != "" ==> path[0] == '/')
    ensures Locate(tls, host + ((":" + Decimal(port)) + path), outside)
         == Location(tls, host, port, if path == "" then "/" else path)
  {
    ValueOfDecimal(port);
    LocateParts(Parts(tls, host, Some(Decimal(port)), path), outside);
  }

  /** What setUrl makes of a URI of these parts. */
  lemma LocatesUri(p: Parts, url: string, outside: int)
    requires NoNul(url) && WellFormed(p) && Recompose(p) == url
    ensures SchemeOf(url) == Some(p.tls) && (p.tls <==> "wss://" <= url)
    ensures Locate(p.tls, CString(AfterScheme(url, p.tls)), outside)
         == Location(p.tls, p.host, PortOf(p, outside), Rooted(p.path))
  {
    SchemeFound(p.tls, p.host + Tail(p));
    var start := AfterScheme(url, p.tls);
    FirstIs(start, IsNul, |start|);
    assert CString(start) == start;
    LocateParts(p, outside);
  }

  /** For every accepted URI shorter than the buffer: what the client is handed is the URI, it is
      scheme, host, optional colon and digits, and path in a row, and setUrl makes of it that
      host, the number the digits stand for or port 443 with TLS and 80 without, and that path or
      "/"; TLS is used exactly for wss. */
  lemma UriAgreement(url: string, buffer: seq<char>, outside: int) returns (p: Parts)
    requires NoNul(url) && Valid(url) && Copied(buffer, url) && |url| < 4096
    ensures WellFormed(p) && Recompose(p) == url == CString(buffer)
    ensures SchemeOf(CString(buffer)) == Some(p.tls)
    ensures p.tls <==> "wss://" <= url
    ensures var port := if p.digits.Some? then PortOf(p, outside) else if "wss://" <= url then 443 else 80;
            Locate(p.tls, CString(AfterScheme(CString(buffer), p.tls)), outside)
            == Location(p.tls, p.host, port, Rooted(p.path))
  {
    CopyIsWhole(buffer, url);
    p :| WellFormed(p) && Recompose(p) == url;
    LocatesUri(p, url, outside);
  }
}
