/** The host:port option of clients/clients.c, cut up in place. */
module HostOption {
  import opened Hpi
  import opened CText

  /** The first c in s at or after from, or the end. */
  ghost predicate FirstAt(s: string, c: char, from: nat, k: nat) {
    from <= k <= |s| && (k < |s| ==> s[k] == c) && forall i | from <= i < k :: s[i] != c
  }

  lemma {:induction false} FirstExists(s: string, c: char, from: nat)
    requires from <= |s|
    ensures exists k: nat :: FirstAt(s, c, from, k)
    decreases |s| - from
  {
    if from == |s| || s[from] == c {
      assert FirstAt(s, c, from, from);
    } else {
      FirstExists(s, c, from + 1);
      var k: nat :| FirstAt(s, c, from + 1, k);
      assert FirstAt(s, c, from, k);
    }
  }

  ghost function First(s: string, c: char, from: nat): (k: nat)
    requires from <= |s|
    ensures FirstAt(s, c, from, k)
  {
    FirstExists(s, c, from);
    var k: nat :| FirstAt(s, c, from, k);
    k
  }

  /** The host part and the text behind the colon, if there is one. */
  datatype Parts = IllFormed | Parts(host: string, port: Option<string>)

  ghost function PortAfter(s: string, from: nat): Option<string>
    requires from <= |s|
  {
    var colon := First(s, ':', from);
    if colon < |s| then Some(s[colon + 1..]) else None
  }

  ghost function Split(s: string): Parts {
    if s != "" && s[0] == '[' then
      var end := First(s, ']', 1);
      if end == |s| then IllFormed else Parts(s[1..end], PortAfter(s, end))
    else
      var end := First(s, ':', 0);
      Parts(s[..end], PortAfter(s, end))
  }

  ghost function PortOf(port: Option<string>): U16 {
    if port.Some? then Atoi(port.value) % 0x1_0000 else DEFAULT_DAEMON_PORT
  }

  /** oh_append_textbuffer on an empty buffer: a text of 255 characters or more is refused. */
  function TextBuffer(s: string): string {
    if |s| < MAX_TEXT_BUFFER_LENGTH then s else ""
  }

  /** What ends up in the options, daemonhost and daemonport; nothing if the option is refused. */
  ghost function OptionOf(s: string): Option<(string, U16)> {
    match Split(s)
    case IllFormed => None
    case Parts(host, port) => Some((TextBuffer(host), PortOf(port)))
  }

  /** Where the host ends and the terminator is written. */
  ghost function HostEnd(s: string): nat {
    if s != "" && s[0] == '[' then First(s, ']', 1) else First(s, ':', 0)
  }

  /** s, terminated, from position at on. */
  ghost predicate IsText(buffer: seq<char>, at: nat, s: string) {
    && at + |s| < |buffer| && buffer[at..at + |s|] == s && buffer[at + |s|] == '\0'
    && forall i | 0 <= i < |s| :: s[i] != '\0'
  }

  /** strchr */
  method StrChr(buffer: array<char>, from: nat, c: char, ghost s: string) returns (r: Option<nat>)
    requires IsText(buffer[..], 0, s) && from <= |s| && c != '\0'
    ensures r == if First(s, c, from) < |s| then Some(First(s, c, from)) else None
  {
    var k := from;
    while buffer[k] != '\0' && buffer[k] != c
      invariant from <= k <= |s| && forall i | from <= i < k :: s[i] != c
      invariant forall i | 0 <= i < |s| :: buffer[i] == s[i]
      decreases |s| - k
    {
      k := k + 1;
    }
    assert k < |s| ==> buffer[k] == s[k];
    assert FirstAt(s, c, from, k);
    r := if buffer[k] == c then Some(k) else None;
  }

  /** Reads the terminated text at from. */
  method TextAt(buffer: array<char>, from: nat, ghost s: string) returns (t: string)
    requires IsText(buffer[..], from, s)
    ensures t == s
  {
    t := "";
    var k := from;
    while buffer[k] != '\0'
      invariant from <= k <= from + |s| && t == s[..k - from]
      invariant forall i | 0 <= i < |s| :: buffer[from + i] == s[i]
      decreases from + |s| - k
    {
      t := t + [buffer[k]];
      k := k + 1;
    }
  }

  /** What follows the first colon from position from on. */
  method PortText(opt: array<char>, from: nat, ghost s: string) returns (port: Option<string>)
    requires IsText(opt[..], 0, s) && from <= |s|
    ensures port == PortAfter(s, from)
  {
    port := None;
    var colon := StrChr(opt, from, ':', s);
    if colon.Some? {
      ghost var behind := s[colon.value + 1..];
      assert opt[colon.value + 1..colon.value + 1 + |behind|] == opt[..|s|][colon.value + 1..] == behind;
      var text := TextAt(opt, colon.value + 1, behind);
      port := Some(text);
    }
  }

  /** The -N part of ohc_option_parse. A NUL is written behind the host; host is what ends up in the options. */
  method ParseDaemon(opt: array<char>, ghost s: string) returns (ok: bool, host: string, port: U16)
    requires IsText(opt[..], 0, s)
    modifies opt
    ensures OptionOf(s) == if ok then Some((host, port)) else None
    ensures opt[..] == if ok && HostEnd(s) < |s| then old(opt[..])[HostEnd(s) := '\0'] else old(opt[..])
  {
    assert forall i | 0 <= i < |s| :: opt[..][0..|s|][i] == opt[i];
    ok, host, port := true, "", 0;
    var hostBegin, hostEnd := 0, None;
    if opt[0] == '[' {
      hostBegin := 1;
      hostEnd := StrChr(opt, hostBegin, ']', s);
      if hostEnd.None? { return false, "", 0; }
    } else {
      hostEnd := StrChr(opt, hostBegin, ':', s);
    }
    ghost var end := if hostEnd.Some? then hostEnd.value else |s|;
    ghost var parts := Split(s);
    assert parts == Parts(s[hostBegin..end], PortAfter(s, end)) by { assert s[0..end] == s[..end]; }
    var portText := None;
    if hostEnd.Some? {
      portText := PortText(opt, hostEnd.value, s);
      opt[hostEnd.value] := '\0';
    } else {
      assert First(s, ':', end) == |s|;
    }
    assert forall i | hostBegin <= i < end :: opt[i] == s[i];
    assert opt[hostBegin..end] == s[hostBegin..end];
    var name := TextAt(opt, hostBegin, s[hostBegin..end]);
    host := TextBuffer(name);
    port := if portText.Some? then Atoi(portText.value) % 0x1_0000 else DEFAULT_DAEMON_PORT;
  }

  // ---------------------------------------------------------------- round trips

  ghost predicate Lacks(s: string, c: char) {
    forall i | 0 <= i < |s| :: s[i] != c
  }

  lemma FirstIs(s: string, c: char, from: nat, k: nat)
    requires FirstAt(s, c, from, k)
    ensures First(s, c, from) == k
  {
  }

  ghost function Plain(host: string, tail: string): string {
    host + ":" + tail
  }

  ghost function Bracketed(host: string, tail: string): string {
    "[" + host + "]:" + tail
  }

  lemma PortRoundTrip(port: U16)
    ensures PortOf(Some(Decimal(port))) == port
  {
    AtoiDecimal(port);
  }

  lemma PlainSplit(host: string, tail: string)
    requires Lacks(host, ':') && (host != "" ==> host[0] != '[')
    ensures Split(Plain(host, tail)) == Parts(host, Some(tail))
  {
    var s := Plain(host, tail);
    FirstIs(s, ':', 0, |host|);
    FirstIs(s, ':', |host|, |host|);
    assert s[..|host|] == host && s[|host| + 1..] == tail;
  }

  /** Between the closing bracket and the colon there may be anything; it is passed over. */
  lemma BracketedJunk(host: string, junk: string, tail: string)
    requires Lacks(host, ']') && Lacks(junk, ':')
    ensures Split("[" + host + "]" + junk + ":" + tail) == Parts(host, Some(tail))
    ensures Split("[" + host + "]" + junk) == Parts(host, None)
  {
    var s, t := "[" + host + "]" + junk + ":" + tail, "[" + host + "]" + junk;
    var n, m := |host| + 1, |host| + 2 + |junk|;
    assert forall i | 1 <= i < n :: s[i] == host[i - 1] && t[i] == host[i - 1];
    assert forall i | n < i < m :: s[i] == junk[i - n - 1] && t[i] == junk[i - n - 1];
    FirstIs(s, ']', 1, n);
    FirstIs(s, ':', n, m);
    FirstIs(t, ']', 1, n);
    FirstIs(t, ':', n, m);
    assert s[1..n] == host && t[1..n] == host && s[m + 1..] == tail;
  }

  lemma BracketedSplit(host: string, tail: string)
    requires Lacks(host, ']')
    ensures Split(Bracketed(host, tail)) == Parts(host, Some(tail))
  {
    var s := Bracketed(host, tail);
    var n := |host| + 1;
    assert s[1..n] == host && s[n] == ']' && s[n + 1] == ':' && s[n + 2..] == tail;
    assert forall i | 1 <= i < n :: s[i] == host[i - 1];
    FirstIs(s, ']', 1, n);
    FirstIs(s, ':', n, n + 1);
  }

  /** Every port comes back from host:port, and every plain host that fits the text buffer; a longer one is lost. */
  lemma PlainRoundTrip(host: string, port: U16)
    requires Lacks(host, ':') && (host != "" ==> host[0] != '[')
    ensures OptionOf(Plain(host, Decimal(port))) == Some((TextBuffer(host), port))
    ensures TextBuffer(host) == if |host| < 255 then host else ""
  {
    PlainSplit(host, Decimal(port));
    PortRoundTrip(port);
  }

  /** The same for a host in brackets, which may contain colons. */
  lemma BracketedRoundTrip(host: string, port: U16)
    requires Lacks(host, ']')
    ensures OptionOf(Bracketed(host, Decimal(port))) == Some((TextBuffer(host), port))
    ensures TextBuffer(host) == if |host| < 255 then host else ""
  {
    BracketedSplit(host, Decimal(port));
    PortRoundTrip(port);
  }

  /** A plain host alone gets the default port. */
  lemma PlainAlone(host: string)
    requires Lacks(host, ':') && (host != "" ==> host[0] != '[')
    ensures OptionOf(host) == Some((TextBuffer(host), DEFAULT_DAEMON_PORT))
  {
    FirstIs(host, ':', 0, |host|);
    FirstIs(host, ':', |host|, |host|);
    assert host[..|host|] == host;
  }

  /** A bracketed host alone gets the default port, and without its closing bracket it is refused. */
  lemma BracketedAlone(host: string)
    requires Lacks(host, ']')
    ensures OptionOf("[" + host + "]") == Some((TextBuffer(host), DEFAULT_DAEMON_PORT))
    ensures OptionOf("[" + host) == None
  {
    var s, t := "[" + host, "[" + host + "]";
    var n := |host| + 1;
    assert forall i | 1 <= i < n :: s[i] == host[i - 1] && t[i] == host[i - 1];
    FirstIs(s, ']', 1, n);
    FirstIs(t, ']', 1, n);
    FirstIs(t, ':', n, n + 1);
    assert t[1..n] == host;
  }
}
