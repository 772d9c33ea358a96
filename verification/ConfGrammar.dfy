/**
 * What the configuration parser accepts, stated as a grammar: a file is a list of segments, each a
 * stanza, a my_entity line, a stray token or a malformed piece, and only the first two change anything.
 */
module ConfGrammar {
  import opened Hpi
  import opened DomainTable
  import opened ConfParser

  datatype Setting = HostIs(s: string) | PortIs(v: nat) | RootIs(s: string)

  // ---------------------------------------------------------------- meaning of a stanza

  /** The first host that is not empty. */
  ghost function FirstHost(xs: seq<Setting>): string
  {
    if xs == [] then ""
    else if xs[0].HostIs? && xs[0].s != "" then Clip(xs[0].s)
    else FirstHost(xs[1..])
  }

  /** The last port, truncated to 16 bits. */
  ghost function LastPort(xs: seq<Setting>): U16
  {
    if xs == [] then DEFAULT_DAEMON_PORT
    else if xs[|xs| - 1].PortIs? then xs[|xs| - 1].v % 0x1_0000
    else LastPort(xs[..|xs| - 1])
  }

  /** The last entity root. */
  ghost function LastRoot(encode: Encoder, xs: seq<Setting>): EntityPath
    requires Encodable(encode, xs)
  {
    if xs == [] then ROOT_PATH
    else if xs[|xs| - 1].RootIs? then encode(xs[|xs| - 1].s).value
    else LastRoot(encode, xs[..|xs| - 1])
  }

  ghost predicate Encodable(encode: Encoder, xs: seq<Setting>) {
    forall i | 0 <= i < |xs| && xs[i].RootIs? :: encode(xs[i].s).Some?
  }

  ghost function StanzaConf(encode: Encoder, did: U32, xs: seq<Setting>): DomainConf
    requires Encodable(encode, xs)
  {
    DomainConf(did, FirstHost(xs), LastPort(xs), LastRoot(encode, xs))
  }

  // ---------------------------------------------------------------- rendering

  ghost function KeyToken(x: Setting): Token {
    match x case HostIs(_) => Host case PortIs(_) => Port case RootIs(_) => Root
  }

  ghost function ValueToken(x: Setting): Token {
    match x case HostIs(s) => Str(s) case PortIs(v) => Int(v) case RootIs(s) => Str(s)
  }

  ghost function RenderSettings(xs: seq<Setting>): Tokens
  {
    if xs == [] then [] else [KeyToken(xs[0]), EqualSign, ValueToken(xs[0])] + RenderSettings(xs[1..])
  }

  ghost function RenderHead(id: Token, junk: Tokens, xs: seq<Setting>): Tokens {
    [Domain, id, LeftCurly] + (junk + RenderSettings(xs))
  }

  datatype Segment =
    | Stray(tok: Token)
    | MyEntity(s: string)
    | Stanza(id: Token, junk: Tokens, settings: seq<Setting>)
    | BadId(tok: Token)
    | NoCurly(id: Token, tok: Token)
    | BadStanza(id: Token, junk: Tokens, settings: seq<Setting>, end: Tokens)
    | BadMyEntity(end: Tokens)

  ghost function Render(g: Segment): Tokens {
    match g
    case Stray(tok) => [tok]
    case MyEntity(s) => [MyEp, EqualSign, Str(s)]
    case Stanza(id, junk, xs) => RenderHead(id, junk, xs) + [RightCurly]
    case BadId(tok) => [Domain, tok]
    case NoCurly(id, tok) => [Domain, id, tok]
    case BadStanza(id, junk, xs, end) => RenderHead(id, junk, xs) + end
    case BadMyEntity(end) => [MyEp] + end
  }

  // ---------------------------------------------------------------- well-formed segments

  /** Tokens skipped before the first setting of a stanza. */
  ghost predicate IsJunk(junk: Tokens) {
    forall i | 0 <= i < |junk| :: !IsGood(junk[i]) && !junk[i].Eof?
  }

  ghost predicate OkHead(encode: Encoder, id: Token, junk: Tokens, xs: seq<Setting>) {
    DomainId(id).Some? && IsJunk(junk) && Encodable(encode, xs)
  }

  ghost predicate IsKey(tok: Token) {
    tok.Host? || tok.Port? || tok.Root?
  }

  ghost predicate OkValue(encode: Encoder, key: Token, v: Token) {
    if key.Port? then v.Int? else v.Str? && (key.Root? ==> encode(v.s).Some?)
  }

  /** The ways a stanza can go wrong once its brace is open; every one ends with the offending token. */
  ghost predicate BadEnd(encode: Encoder, xs: seq<Setting>, end: Tokens) {
    || (end == [RightCurly] && FirstHost(xs) == "")
    || (|end| == 1 && xs != [] && !IsGood(end[0]) && !end[0].Eof?)
    || (|end| == 2 && IsKey(end[0]) && !end[1].EqualSign? && !end[1].Eof?)
    || (|end| == 3 && IsKey(end[0]) && end[1].EqualSign? && !OkValue(encode, end[0], end[2]) && !end[2].Eof?)
  }

  ghost predicate BadMyEnd(encode: Encoder, end: Tokens) {
    || (|end| == 1 && !end[0].EqualSign? && !end[0].Eof?)
    || (|end| == 2 && end[0].EqualSign? && !end[1].Eof? && !(end[1].Str? && encode(end[1].s).Some?))
  }

  ghost predicate Ok(encode: Encoder, g: Segment) {
    match g
    case Stray(tok) => !tok.Eof? && !tok.Domain? && !tok.MyEp?
    case MyEntity(s) => encode(s).Some?
    case Stanza(id, junk, xs) => OkHead(encode, id, junk, xs) && FirstHost(xs) != ""
    case BadId(tok) => DomainId(tok).None? && !tok.Eof?
    case NoCurly(id, tok) => DomainId(id).Some? && !tok.LeftCurly? && !tok.Eof?
    case BadStanza(id, junk, xs, end) => OkHead(encode, id, junk, xs) && BadEnd(encode, xs, end)
    case BadMyEntity(end) => BadMyEnd(encode, end)
  }

  /** What a segment does to the configuration. */
  ghost function Effect(encode: Encoder, g: Segment, c: Config): Config
    requires Ok(encode, g)
  {
    match g
    case Stanza(id, _, xs) => WithDomain(c, StanzaConf(encode, DomainId(id).value, xs))
    case MyEntity(s) => c.(myEntity := encode(s).value)
    case _ => c
  }

  /** What may be left when the file ends in the middle of a segment. */
  datatype Cut = Nothing | CutDomain | CutId(id: Token)
      | CutStanza(id: Token, junk: Tokens, settings: seq<Setting>, end: Tokens) | CutMyEntity(end: Tokens)

  ghost function RenderCut(k: Cut): Tokens {
    match k
    case Nothing => []
    case CutDomain => [Domain]
    case CutId(id) => [Domain, id]
    case CutStanza(id, junk, xs, end) => RenderHead(id, junk, xs) + end
    case CutMyEntity(end) => [MyEp] + end
  }

  ghost predicate OkCut(encode: Encoder, k: Cut) {
    match k
    case Nothing => true
    case CutDomain => true
    case CutId(id) => DomainId(id).Some?
    case CutStanza(id, junk, xs, end) =>
      OkHead(encode, id, junk, xs)
      && (end == [] || (|end| == 1 && IsKey(end[0])) || (|end| == 2 && IsKey(end[0]) && end[1].EqualSign?))
    case CutMyEntity(end) => end == [] || end == [EqualSign]
  }

  ghost function RenderAll(gs: seq<Segment>): Tokens
  {
    if gs == [] then [] else Render(gs[0]) + RenderAll(gs[1..])
  }

  ghost predicate AllOk(encode: Encoder, gs: seq<Segment>) {
    forall i | 0 <= i < |gs| :: Ok(encode, gs[i])
  }

  /** The fold of the segments' effects, in file order. */
  ghost function Effects(encode: Encoder, gs: seq<Segment>, c: Config): Config
    requires AllOk(encode, gs)
  {
    if gs == [] then c else Effects(encode, gs[1..], Effect(encode, gs[0], c))
  }

  // ---------------------------------------------------------------- the loop over the settings

  /** The local variables after one well-formed setting. */
  ghost function Step(encode: Encoder, x: Setting, f: Fields): Fields
    requires x.RootIs? ==> encode(x.s).Some?
  {
    match x
    case HostIs(s) => if f.host == "" then f.(host := Clip(s)) else f
    case PortIs(v) => f.(port := v % TWO32)
    case RootIs(s) => f.(root := encode(s).value)
  }

  ghost function Steps(encode: Encoder, xs: seq<Setting>, f: Fields): Fields
    requires Encodable(encode, xs)
  {
    if xs == [] then f else Steps(encode, xs[1..], Step(encode, xs[0], f))
  }

  lemma {:induction false} StepsHost(encode: Encoder, xs: seq<Setting>, f: Fields)
    requires Encodable(encode, xs)
    ensures Steps(encode, xs, f).host == if f.host != "" then f.host else FirstHost(xs)
  {
    if xs != [] {
      StepsHost(encode, xs[1..], Step(encode, xs[0], f));
    }
  }

  lemma {:induction false} StepsLast(encode: Encoder, xs: seq<Setting>, f: Fields)
    requires Encodable(encode, xs) && xs != []
    ensures Steps(encode, xs, f) == Step(encode, xs[|xs| - 1], Steps(encode, xs[..|xs| - 1], f))
  {
    if |xs| > 1 {
      StepsLast(encode, xs[1..], Step(encode, xs[0], f));
      assert xs[1..][..|xs| - 2] == xs[..|xs| - 1][1..];
    }
  }

  lemma {:induction false} StepsPortRoot(encode: Encoder, xs: seq<Setting>)
    requires Encodable(encode, xs)
    ensures var f := Steps(encode, xs, INITIAL_FIELDS);
      f.port % 0x1_0000 == LastPort(xs) && f.root == LastRoot(encode, xs)
    decreases |xs|
  {
    if xs != [] {
      StepsLast(encode, xs, INITIAL_FIELDS);
      StepsPortRoot(encode, xs[..|xs| - 1]);
    }
  }

  /** The parser's running variables end up holding the first host, the last port and the last root. */
  lemma StepsMeaning(encode: Encoder, did: U32, xs: seq<Setting>)
    requires Encodable(encode, xs)
    ensures var f := Steps(encode, xs, INITIAL_FIELDS);
      f.host == FirstHost(xs) && FieldsConf(did, f) == StanzaConf(encode, did, xs)
  {
    StepsHost(encode, xs, INITIAL_FIELDS);
    StepsPortRoot(encode, xs);
    HostClipped(xs);
  }

  lemma {:induction false} HostClipped(xs: seq<Setting>)
    ensures Clip(FirstHost(xs)) == FirstHost(xs)
  {
    if xs != [] { HostClipped(xs[1..]); }
  }

  lemma SettingRead(encode: Encoder, x: Setting, rest: Tokens, f: Fields)
    requires x.RootIs? ==> encode(x.s).Some?
    ensures ParseSetting(encode, KeyToken(x), [EqualSign, ValueToken(x)] + rest, f)
         == GoodSetting(Step(encode, x, f), rest)
  {
    var ts := [EqualSign, ValueToken(x)] + rest;
    assert Tail(ts) == [ValueToken(x)] + rest && Tail(Tail(ts)) == rest;
  }

  lemma LoopOverOne(encode: Encoder, did: U32, x: Setting, rest: Tokens, f: Fields)
    requires x.RootIs? ==> encode(x.s).Some?
    ensures StanzaLoop(encode, did, KeyToken(x), [EqualSign, ValueToken(x)] + rest, f)
         == StanzaLoop(encode, did, Head(rest), Tail(rest), Step(encode, x, f))
  {
    SettingRead(encode, x, rest, f);
  }

  /** Reading well-formed settings just performs their steps. */
  lemma {:induction false} LoopOverSettings(encode: Encoder, did: U32, xs: seq<Setting>, end: Tokens, f: Fields)
    requires Encodable(encode, xs)
    ensures var ts := RenderSettings(xs) + end;
      StanzaLoop(encode, did, Head(ts), Tail(ts), f)
      == StanzaLoop(encode, did, Head(end), Tail(end), Steps(encode, xs, f))
    decreases |xs|
  {
    if xs == [] {
      assert RenderSettings(xs) + end == end;
    } else {
      var rest := RenderSettings(xs[1..]) + end;
      var ts := RenderSettings(xs) + end;
      assert Head(ts) == KeyToken(xs[0]) && Tail(ts) == [EqualSign, ValueToken(xs[0])] + rest;
      LoopOverOne(encode, did, xs[0], rest, f);
      LoopOverSettings(encode, did, xs[1..], end, Step(encode, xs[0], f));
    }
  }

  lemma {:induction false} SkipOverJunk(junk: Tokens, ts: Tokens)
    requires IsJunk(junk) && (IsGood(Head(ts)) || Head(ts).Eof?)
    ensures SkipToGood(junk + ts) == (Head(ts), Tail(ts))
  {
    if junk == [] {
      assert junk + ts == ts;
    } else {
      assert (junk + ts)[1..] == junk[1..] + ts;
      SkipOverJunk(junk[1..], ts);
    }
  }

  // ---------------------------------------------------------------- parsing what was rendered

  ghost function RunFields(encode: Encoder, xs: seq<Setting>): Fields
    requires Encodable(encode, xs)
  {
    Steps(encode, xs, INITIAL_FIELDS)
  }

  /** From the open brace to the first token after the well-formed settings. */
  lemma BodyRead(encode: Encoder, did: U32, junk: Tokens, xs: seq<Setting>, end: Tokens)
    requires IsJunk(junk) && Encodable(encode, xs) && (xs != [] || IsGood(Head(end)) || Head(end).Eof?)
    ensures StanzaBody(encode, did, junk + RenderSettings(xs) + end)
         == StanzaLoop(encode, did, Head(end), Tail(end), RunFields(encode, xs))
  {
    var ts := RenderSettings(xs) + end;
    assert junk + RenderSettings(xs) + end == junk + ts;
    assert xs != [] ==> Head(ts) == KeyToken(xs[0]);
    assert xs == [] ==> ts == end;
    SkipOverJunk(junk, ts);
    LoopOverSettings(encode, did, xs, end, INITIAL_FIELDS);
  }

  lemma HeadRead(encode: Encoder, id: Token, body: Tokens)
    requires DomainId(id).Some?
    ensures ProcessDomain(encode, [Domain, id, LeftCurly] + body) == StanzaBody(encode, DomainId(id).value, body)
  {
    var ts := [Domain, id, LeftCurly] + body;
    assert Tail(ts) == [id, LeftCurly] + body && Tail(Tail(ts)) == [LeftCurly] + body && Tail(Tail(Tail(ts))) == body;
  }

  lemma StanzaRead(encode: Encoder, id: Token, junk: Tokens, xs: seq<Setting>, end: Tokens)
    requires OkHead(encode, id, junk, xs) && (xs != [] || IsGood(Head(end)) || Head(end).Eof?)
    ensures ProcessDomain(encode, RenderHead(id, junk, xs) + end)
         == StanzaLoop(encode, DomainId(id).value, Head(end), Tail(end), RunFields(encode, xs))
  {
    var body := junk + RenderSettings(xs) + end;
    assert RenderHead(id, junk, xs) + end == [Domain, id, LeftCurly] + body;
    HeadRead(encode, id, body);
    BodyRead(encode, DomainId(id).value, junk, xs, end);
  }

  /** A broken key, equal sign or value stops the loop right behind it. */
  lemma BadEndRead(encode: Encoder, did: U32, xs: seq<Setting>, end: Tokens, rest: Tokens)
    requires Encodable(encode, xs) && BadEnd(encode, xs, end)
    ensures StanzaLoop(encode, did, Head(end + rest), Tail(end + rest), RunFields(encode, xs)) == Failed(-10, rest)
  {
    StepsHost(encode, xs, INITIAL_FIELDS);
    var ts := Tail(end + rest);
    assert Head(end + rest) == end[0] && ts == end[1..] + rest;
    if |end| >= 2 {
      assert Head(ts) == end[1] && Tail(ts) == end[2..] + rest;
    }
    if |end| == 3 {
      assert Head(Tail(ts)) == end[2] && Tail(Tail(ts)) == rest;
    }
  }

  ghost predicate IsDomainSegment(g: Segment) {
    g.Stanza? || g.BadId? || g.NoCurly? || g.BadStanza?
  }

  /** The return code for a malformed stanza: the id 0, another bad id, and anything else. */
  ghost function FailureCode(g: Segment): int {
    if g.BadId? then (if g.tok.Int? then -2 else -3) else -10
  }

  ghost predicate Succeeds(encode: Encoder, g: Segment, r: StanzaResult, rest: Tokens)
    requires Ok(encode, g)
  {
    if g.Stanza? then r == Parsed(StanzaConf(encode, DomainId(g.id).value, g.settings), rest)
    else r == Failed(FailureCode(g), rest)
  }

  /** process_domain_token on a rendered segment: it consumes exactly the segment and succeeds only on a stanza. */
  lemma DomainSegmentRead(encode: Encoder, g: Segment, rest: Tokens)
    requires Ok(encode, g) && IsDomainSegment(g)
    ensures Succeeds(encode, g, ProcessDomain(encode, Render(g) + rest), rest)
  {
    var ts := Render(g) + rest;
    match g
    case Stanza(id, junk, xs) =>
      var end := [RightCurly] + rest;
      assert ts == RenderHead(id, junk, xs) + end && Tail(end) == rest;
      StanzaRead(encode, id, junk, xs, end);
      StepsMeaning(encode, DomainId(id).value, xs);
    case BadId(tok) =>
      assert Tail(ts) == [tok] + rest && Tail(Tail(ts)) == rest;
    case NoCurly(id, tok) =>
      assert Tail(ts) == [id, tok] + rest && Tail(Tail(ts)) == [tok] + rest && Tail(Tail(Tail(ts))) == rest;
    case BadStanza(id, junk, xs, end) =>
      assert ts == RenderHead(id, junk, xs) + (end + rest);
      assert Head(end + rest) == end[0];
      StanzaRead(encode, id, junk, xs, end + rest);
      BadEndRead(encode, DomainId(id).value, xs, end, rest);
  }

  lemma MyEntityRead(encode: Encoder, end: Tokens, rest: Tokens)
    requires |end| == 2 && end[0].EqualSign? && !end[1].Eof?
    ensures var r := ProcessMyEntity(encode, [MyEp] + end + rest);
      r.1 == (if end[1].Str? then encode(end[1].s) else None) && r.2 == rest
  {
    var ts := [MyEp] + end + rest;
    assert Tail(ts) == [end[0], end[1]] + rest && Tail(Tail(ts)) == [end[1]] + rest && Tail(Tail(Tail(ts))) == rest;
  }

  lemma BadMyEntityRead(encode: Encoder, end: Tokens, rest: Tokens)
    requires BadMyEnd(encode, end)
    ensures var r := ProcessMyEntity(encode, [MyEp] + end + rest);
      && r.1 == None && r.2 == rest
      && r.0 == if |end| == 1 then -2 else if end[1].Str? then -4 else -3
  {
    if |end| == 2 {
      MyEntityRead(encode, end, rest);
    } else {
      var ts := [MyEp] + end + rest;
      assert Tail(ts) == [end[0]] + rest && Tail(Tail(ts)) == rest;
    }
  }

  /** One segment is one round of the loading loop. */
  lemma SegmentLoad(encode: Encoder, g: Segment, rest: Tokens, c: Config)
    requires Ok(encode, g)
    ensures Load(encode, Render(g) + rest, c) == Load(encode, rest, Effect(encode, g, c))
  {
    var ts := Render(g) + rest;
    if IsDomainSegment(g) {
      DomainSegmentRead(encode, g, rest);
    } else if g.MyEntity? {
      var end := [EqualSign, Str(g.s)];
      assert ts == [MyEp] + end + rest;
      MyEntityRead(encode, end, rest);
    } else if g.BadMyEntity? {
      BadMyEntityRead(encode, g.end, rest);
    } else {
      assert Tail(ts) == rest;
    }
  }

  /** A segment cut off by the end of the file changes nothing. */
  lemma CutLoad(encode: Encoder, k: Cut, c: Config)
    requires OkCut(encode, k)
    ensures Load(encode, RenderCut(k), c) == c
  {
    match k
    case Nothing =>
    case CutDomain =>
    case CutId(id) =>
      assert Tail(RenderCut(k)) == [id];
    case CutStanza(id, junk, xs, end) =>
      StanzaRead(encode, id, junk, xs, end);
      if |end| == 2 { assert Tail(end) == [EqualSign]; }
    case CutMyEntity(end) =>
      if end != [] { assert Tail(RenderCut(k)) == [EqualSign]; }
  }

  lemma Regroup(a: Tokens, b: Tokens, c: Tokens)
    ensures (a + b) + c == a + (b + c)
  {
  }

  lemma RenderSplit(gs: seq<Segment>, k: Cut)
    requires gs != []
    ensures RenderAll(gs) + RenderCut(k) == Render(gs[0]) + (RenderAll(gs[1..]) + RenderCut(k))
  {
    Regroup(Render(gs[0]), RenderAll(gs[1..]), RenderCut(k));
  }

  /**
   * Loading any file: the result is the fold of its well-formed stanzas and my_entity lines.
   * A malformed piece adds nothing, and what follows it is still processed.
   */
  lemma {:induction false} FileLoad(encode: Encoder, gs: seq<Segment>, k: Cut, c: Config)
    requires AllOk(encode, gs) && OkCut(encode, k)
    ensures Load(encode, RenderAll(gs) + RenderCut(k), c) == Effects(encode, gs, c)
    decreases |gs|
  {
    if gs == [] {
      assert RenderAll(gs) + RenderCut(k) == RenderCut(k);
      CutLoad(encode, k, c);
    } else {
      var rest := RenderAll(gs[1..]) + RenderCut(k);
      RenderSplit(gs, k);
      SegmentLoad(encode, gs[0], rest, c);
      FileLoad(encode, gs[1..], k, Effect(encode, gs[0], c));
    }
  }
}
