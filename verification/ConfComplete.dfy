/**
 * The grammar of module ConfGrammar describes every file, not only the ones rendered from it, and the
 * consequences for whole files: the round trip, and which of several settings or stanzas counts.
 */
module ConfComplete {
  import opened Hpi
  import opened DomainTable
  import opened ConfParser
  import opened ConfGrammar

  ghost predicate EofFree(ts: Tokens) {
    forall i | 0 <= i < |ts| :: !ts[i].Eof?
  }

  ghost predicate StartsWithSetting(encode: Encoder, ts: Tokens) {
    |ts| >= 3 && IsKey(ts[0]) && ts[1].EqualSign? && OkValue(encode, ts[0], ts[2])
  }

  ghost function SettingOf(key: Token, v: Token): Setting
    requires IsKey(key) && if key.Port? then v.Int? else v.Str?
  {
    if key.Port? then PortIs(v.v) else if key.Host? then HostIs(v.s) else RootIs(v.s)
  }

  lemma ConsSetting(encode: Encoder, ts: Tokens, xs: seq<Setting>, end: Tokens)
    requires StartsWithSetting(encode, ts) && ts[3..] == RenderSettings(xs) + end && Encodable(encode, xs)
    ensures ts == RenderSettings([SettingOf(ts[0], ts[2])] + xs) + end
    ensures Encodable(encode, [SettingOf(ts[0], ts[2])] + xs)
  {
    var x := SettingOf(ts[0], ts[2]);
    assert ([x] + xs)[1..] == xs;
    assert ts[..3] == [KeyToken(x), EqualSign, ValueToken(x)];
    assert ts == ts[..3] + ts[3..] == (ts[..3] + RenderSettings(xs)) + end;
  }

  /** The longest run of well-formed settings. */
  lemma {:induction false} SplitSettings(encode: Encoder, ts: Tokens) returns (xs: seq<Setting>, end: Tokens)
    requires EofFree(ts)
    ensures ts == RenderSettings(xs) + end && Encodable(encode, xs) && EofFree(end)
    ensures !StartsWithSetting(encode, end) && (xs == [] ==> end == ts)
    decreases |ts|
  {
    if StartsWithSetting(encode, ts) {
      var xs', end' := SplitSettings(encode, ts[3..]);
      ConsSetting(encode, ts, xs', end');
      xs, end := [SettingOf(ts[0], ts[2])] + xs', end';
    } else {
      xs, end := [], ts;
    }
  }

  /** The tokens skipped after an open brace. */
  lemma {:induction false} SplitJunk(ts: Tokens) returns (junk: Tokens, rest: Tokens)
    requires EofFree(ts)
    ensures ts == junk + rest && IsJunk(junk) && EofFree(rest) && (rest == [] || IsGood(rest[0]))
    decreases |ts|
  {
    if ts == [] || IsGood(ts[0]) {
      junk, rest := [], ts;
    } else {
      var junk', rest' := SplitJunk(ts[1..]);
      junk, rest := [ts[0]] + junk', rest';
    }
  }

  /** Either one whole segment and the rest, or a segment cut off by the end of the file. */
  datatype Split = Whole(g: Segment, rest: Tokens) | Partial(k: Cut)

  ghost predicate Splits(encode: Encoder, ts: Tokens, p: Split) {
    match p
    case Whole(g, rest) => Ok(encode, g) && ts == Render(g) + rest && |rest| < |ts| && EofFree(rest)
    case Partial(k) => OkCut(encode, k) && ts == RenderCut(k)
  }

  /** What ends the settings: the closing brace, an offending token or the end of the file. */
  ghost predicate EndSplits(encode: Encoder, xs: seq<Setting>, end: Tokens, n: nat) {
    n <= |end| && BadEnd(encode, xs, end[..n])
  }

  ghost predicate CutEnd(end: Tokens) {
    end == [] || (|end| == 1 && IsKey(end[0])) || (|end| == 2 && IsKey(end[0]) && end[1].EqualSign?)
  }

  lemma SplitEnd(encode: Encoder, xs: seq<Setting>, end: Tokens) returns (n: nat)
    requires EofFree(end) && !StartsWithSetting(encode, end)
    requires xs != [] || end == [] || IsGood(end[0])
    requires end != [] && end[0].RightCurly? ==> FirstHost(xs) == ""
    ensures EndSplits(encode, xs, end, n) || CutEnd(end)
  {
    n := 0;
    if end != [] && (end[0].RightCurly? || !IsGood(end[0])) {
      n := 1;
      assert end[..1] == [end[0]];
    } else if |end| >= 2 && !end[1].EqualSign? {
      n := 2;
      assert end[..2] == [end[0], end[1]];
    } else if |end| >= 3 {
      n := 3;
      assert end[..3] == [end[0], end[1], end[2]];
    }
  }

  lemma SplitBadStanza(encode: Encoder, id: Token, junk: Tokens, xs: seq<Setting>, end: Tokens, n: nat)
    returns (p: Split)
    requires OkHead(encode, id, junk, xs) && EofFree(end) && EndSplits(encode, xs, end, n)
    ensures Splits(encode, RenderHead(id, junk, xs) + end, p)
  {
    var g := BadStanza(id, junk, xs, end[..n]);
    p := Whole(g, end[n..]);
    assert end == end[..n] + end[n..];
    assert RenderHead(id, junk, xs) + end == Render(g) + end[n..];
  }

  lemma SplitStanza(encode: Encoder, id: Token, junk: Tokens, xs: seq<Setting>, end: Tokens) returns (p: Split)
    requires OkHead(encode, id, junk, xs) && EofFree(end) && !StartsWithSetting(encode, end)
    requires xs != [] || end == [] || IsGood(end[0])
    ensures Splits(encode, RenderHead(id, junk, xs) + end, p)
  {
    if end != [] && end[0].RightCurly? && FirstHost(xs) != "" {
      p := Whole(Stanza(id, junk, xs), end[1..]);
      assert [RightCurly] + end[1..] == end;
    } else {
      var n := SplitEnd(encode, xs, end);
      if EndSplits(encode, xs, end, n) {
        p := SplitBadStanza(encode, id, junk, xs, end, n);
      } else {
        p := Partial(CutStanza(id, junk, xs, end));
      }
    }
  }

  lemma HeadAssoc(id: Token, junk: Tokens, xs: seq<Setting>, end: Tokens)
    ensures [Domain, id, LeftCurly] + (junk + (RenderSettings(xs) + end)) == RenderHead(id, junk, xs) + end
  {
  }

  lemma SplitBody(encode: Encoder, id: Token, body: Tokens) returns (p: Split)
    requires DomainId(id).Some? && EofFree(body)
    ensures Splits(encode, [Domain, id, LeftCurly] + body, p)
  {
    var junk, rest := SplitJunk(body);
    var xs, end := SplitSettings(encode, rest);
    HeadAssoc(id, junk, xs, end);
    p := SplitStanza(encode, id, junk, xs, end);
  }

  lemma SplitDomain(encode: Encoder, ts: Tokens) returns (p: Split)
    requires EofFree(ts) && ts != [] && ts[0].Domain?
    ensures Splits(encode, ts, p)
  {
    if |ts| == 1 {
      p := Partial(CutDomain);
    } else if DomainId(ts[1]).None? {
      p := Whole(BadId(ts[1]), ts[2..]);
    } else if |ts| == 2 {
      p := Partial(CutId(ts[1]));
    } else if !ts[2].LeftCurly? {
      p := Whole(NoCurly(ts[1], ts[2]), ts[3..]);
    } else {
      p := SplitBody(encode, ts[1], ts[3..]);
      assert ts == [Domain, ts[1], LeftCurly] + ts[3..];
    }
  }

  lemma SplitMyEntity(encode: Encoder, ts: Tokens) returns (p: Split)
    requires EofFree(ts) && ts != [] && ts[0].MyEp?
    ensures Splits(encode, ts, p)
  {
    if |ts| == 1 {
      p := Partial(CutMyEntity([]));
    } else if !ts[1].EqualSign? {
      p := Whole(BadMyEntity([ts[1]]), ts[2..]);
    } else if |ts| == 2 {
      p := Partial(CutMyEntity([EqualSign]));
    } else if ts[2].Str? && encode(ts[2].s).Some? {
      p := Whole(MyEntity(ts[2].s), ts[3..]);
    } else {
      p := Whole(BadMyEntity([ts[1], ts[2]]), ts[3..]);
    }
  }

  lemma SplitFirst(encode: Encoder, ts: Tokens) returns (p: Split)
    requires EofFree(ts) && ts != []
    ensures Splits(encode, ts, p)
  {
    if ts[0].Domain? {
      p := SplitDomain(encode, ts);
    } else if ts[0].MyEp? {
      p := SplitMyEntity(encode, ts);
    } else {
      p := Whole(Stray(ts[0]), ts[1..]);
      assert ts == [ts[0]] + ts[1..];
    }
  }

  lemma ConsSegment(encode: Encoder, g: Segment, gs: seq<Segment>, k: Cut)
    requires Ok(encode, g) && AllOk(encode, gs)
    ensures AllOk(encode, [g] + gs) && RenderAll([g] + gs) + RenderCut(k) == Render(g) + (RenderAll(gs) + RenderCut(k))
  {
    assert ([g] + gs)[1..] == gs;
  }

  /** Every token stream is a list of segments and a cut, so FileLoad speaks about every file. */
  lemma {:induction false} EveryFileSegments(encode: Encoder, ts: Tokens) returns (gs: seq<Segment>, k: Cut)
    requires EofFree(ts)
    ensures AllOk(encode, gs) && OkCut(encode, k) && ts == RenderAll(gs) + RenderCut(k)
    decreases |ts|
  {
    if ts == [] {
      gs, k := [], Nothing;
    } else {
      var p := SplitFirst(encode, ts);
      if p.Partial? {
        gs, k := [], p.k;
        assert RenderAll(gs) + RenderCut(k) == RenderCut(k);
      } else {
        var gs', k' := EveryFileSegments(encode, p.rest);
        gs, k := [p.g] + gs', k';
        ConsSegment(encode, p.g, gs', k);
      }
    }
  }

  /** process_domain_token succeeds exactly on the stanzas of the grammar, with exactly their meaning. */
  lemma StanzaParsesIff(encode: Encoder, ts: Tokens, conf: DomainConf, rest: Tokens)
    requires EofFree(ts) && ts != [] && ts[0].Domain?
    ensures ProcessDomain(encode, ts) == Parsed(conf, rest)
      <==> exists g :: Ok(encode, g) && g.Stanza? && ts == Render(g) + rest
                    && conf == StanzaConf(encode, DomainId(g.id).value, g.settings)
  {
    forall g | Ok(encode, g) && g.Stanza? && ts == Render(g) + rest
      ensures ProcessDomain(encode, ts) == Parsed(StanzaConf(encode, DomainId(g.id).value, g.settings), rest)
    {
      DomainSegmentRead(encode, g, rest);
    }
    var p := SplitDomain(encode, ts);
    match p
    case Whole(g, rest') =>
      assert IsDomainSegment(g) by { assert Render(g)[0] == ts[0]; }
      DomainSegmentRead(encode, g, rest');
    case Partial(k) =>
      CutFails(encode, k);
  }

  lemma CutFails(encode: Encoder, k: Cut)
    requires OkCut(encode, k) && RenderCut(k) != [] && RenderCut(k)[0].Domain?
    ensures ProcessDomain(encode, RenderCut(k)).Failed?
  {
    match k
    case Nothing =>
    case CutDomain =>
    case CutId(id) => assert Tail(RenderCut(k)) == [id];
    case CutStanza(id, junk, xs, end) =>
      StanzaRead(encode, id, junk, xs, end);
      if |end| == 2 { assert Tail(end) == [EqualSign]; }
    case CutMyEntity(end) =>
  }

  // ---------------------------------------------------------------- which stanza counts

  ghost predicate AreStanzas(encode: Encoder, gs: seq<Segment>) {
    AllOk(encode, gs) && forall i | 0 <= i < |gs| :: gs[i].Stanza?
  }

  ghost function IdOf(g: Segment): U32
    requires g.Stanza? && DomainId(g.id).Some?
  {
    DomainId(g.id).value
  }

  ghost predicate Defines(encode: Encoder, gs: seq<Segment>, i: nat, d: U32)
    requires AreStanzas(encode, gs)
  {
    i < |gs| && IdOf(gs[i]) == d && forall j | i < j < |gs| :: IdOf(gs[j]) != d
  }

  /** d is bound by its last stanza, or as before if it has none. */
  ghost predicate BoundByLast(encode: Encoder, gs: seq<Segment>, before: Table, after: Table, d: U32)
    requires AreStanzas(encode, gs)
  {
    && (forall i: nat | Defines(encode, gs, i, d) :: d in after && after[d] == StanzaConf(encode, d, gs[i].settings))
    && ((forall i | 0 <= i < |gs| :: IdOf(gs[i]) != d) ==>
          (d in after <==> d in before) && (d in after ==> after[d] == before[d]))
  }

  lemma ConsBound(encode: Encoder, gs: seq<Segment>, before: Table, after: Table, d: U32)
    requires AreStanzas(encode, gs) && gs != [] && AreStanzas(encode, gs[1..])
    requires var id := IdOf(gs[0]);
      BoundByLast(encode, gs[1..], before[id := StanzaConf(encode, id, gs[0].settings)], after, d)
    ensures BoundByLast(encode, gs, before, after, d)
  {
    var rest := gs[1..];
    assert forall j | 0 <= j < |rest| :: rest[j] == gs[j + 1];
    forall i: nat | Defines(encode, gs, i, d) ensures d in after && after[d] == StanzaConf(encode, d, gs[i].settings) {
      if i > 0 { assert Defines(encode, rest, i - 1, d); }
    }
  }

  lemma {:induction false} StanzasFold(encode: Encoder, gs: seq<Segment>, c: Config, d: U32)
    requires AreStanzas(encode, gs)
    ensures BoundByLast(encode, gs, c.domains, Effects(encode, gs, c).domains, d)
    decreases |gs|
  {
    if gs != [] {
      StanzasFold(encode, gs[1..], Effect(encode, gs[0], c), d);
      ConsBound(encode, gs, c.domains, Effects(encode, gs, c).domains, d);
    }
  }

  /** Writing stanzas out and loading them binds every id to its last stanza and nothing else to anything. */
  lemma ConfigRoundTrip(encode: Encoder, gs: seq<Segment>, c: Config, d: U32)
    requires AreStanzas(encode, gs)
    ensures BoundByLast(encode, gs, c.domains, Load(encode, RenderAll(gs), c).domains, d)
  {
    FileLoad(encode, gs, Nothing, c);
    assert RenderAll(gs) + RenderCut(Nothing) == RenderAll(gs);
    StanzasFold(encode, gs, c, d);
  }

  ghost predicate DistinctIds(encode: Encoder, gs: seq<Segment>)
    requires AreStanzas(encode, gs)
  {
    forall i, j | 0 <= i < j < |gs| :: IdOf(gs[i]) != IdOf(gs[j])
  }

  /** With distinct ids, loading into an empty table yields exactly the map the stanzas describe. */
  lemma DistinctStanzasRoundTrip(encode: Encoder, gs: seq<Segment>, ep: EntityPath)
    requires AreStanzas(encode, gs) && DistinctIds(encode, gs)
    ensures var t := Load(encode, RenderAll(gs), Config(map[], ep)).domains;
      && (forall i | 0 <= i < |gs| ::
            IdOf(gs[i]) in t && t[IdOf(gs[i])] == StanzaConf(encode, IdOf(gs[i]), gs[i].settings))
      && (forall d | d in t :: exists i :: 0 <= i < |gs| && IdOf(gs[i]) == d)
  {
    var c := Config(map[], ep);
    var t := Load(encode, RenderAll(gs), c).domains;
    forall i | 0 <= i < |gs|
      ensures IdOf(gs[i]) in t && t[IdOf(gs[i])] == StanzaConf(encode, IdOf(gs[i]), gs[i].settings)
    {
      ConfigRoundTrip(encode, gs, c, IdOf(gs[i]));
      assert Defines(encode, gs, i, IdOf(gs[i]));
    }
    forall d | d in t ensures exists i :: 0 <= i < |gs| && IdOf(gs[i]) == d {
      ConfigRoundTrip(encode, gs, c, d);
    }
  }

  // ---------------------------------------------------------------- order of settings

  ghost predicate SameKind(x: Setting, y: Setting) {
    KeyToken(x) == KeyToken(y)
  }

  lemma {:induction false} HostSwap(xs: seq<Setting>, x: Setting, y: Setting, ys: seq<Setting>)
    requires !SameKind(x, y)
    ensures FirstHost(xs + [x, y] + ys) == FirstHost(xs + [y, x] + ys)
    decreases |xs|
  {
    if xs == [] {
      var a, b := [x, y] + ys, [y, x] + ys;
      assert xs + [x, y] + ys == a && xs + [y, x] + ys == b;
      assert a[1..] == [y] + ys && b[1..] == [x] + ys && ([y] + ys)[1..] == ys && ([x] + ys)[1..] == ys;
    } else {
      assert (xs + [x, y] + ys)[1..] == xs[1..] + [x, y] + ys;
      assert (xs + [y, x] + ys)[1..] == xs[1..] + [y, x] + ys;
      HostSwap(xs[1..], x, y, ys);
    }
  }

  lemma {:induction false} PortRootSwap(encode: Encoder, xs: seq<Setting>, x: Setting, y: Setting, ys: seq<Setting>)
    requires !SameKind(x, y) && Encodable(encode, xs + [x, y] + ys) && Encodable(encode, xs + [y, x] + ys)
    ensures LastPort(xs + [x, y] + ys) == LastPort(xs + [y, x] + ys)
    ensures LastRoot(encode, xs + [x, y] + ys) == LastRoot(encode, xs + [y, x] + ys)
    decreases |ys|
  {
    var a, b := xs + [x, y] + ys, xs + [y, x] + ys;
    var n := |a| - 1;
    if ys == [] {
      assert a[..n] == xs + [x] && b[..n] == xs + [y];
      assert (xs + [x])[..n - 1] == xs && (xs + [y])[..n - 1] == xs;
    } else {
      var m := |ys| - 1;
      assert a[..n] == xs + [x, y] + ys[..m] && b[..n] == xs + [y, x] + ys[..m];
      PortRootSwap(encode, xs, x, y, ys[..m]);
    }
  }

  lemma SwapEncodable(encode: Encoder, xs: seq<Setting>, x: Setting, y: Setting, ys: seq<Setting>)
    requires Encodable(encode, xs + [x, y] + ys)
    ensures Encodable(encode, xs + [y, x] + ys)
  {
    var a, b := xs + [x, y] + ys, xs + [y, x] + ys;
    forall i | 0 <= i < |b| && b[i].RootIs? ensures encode(b[i].s).Some? {
      var j := if i == |xs| then i + 1 else if i == |xs| + 1 then i - 1 else i;
      assert b[i] == a[j];
    }
  }

  /** Exchanging neighbouring settings of different kinds changes nothing: the order of host, port and root is free. */
  lemma SettingOrderIrrelevant(encode: Encoder, did: U32, xs: seq<Setting>, x: Setting, y: Setting, ys: seq<Setting>)
    requires !SameKind(x, y) && Encodable(encode, xs + [x, y] + ys)
    ensures Encodable(encode, xs + [y, x] + ys)
    ensures StanzaConf(encode, did, xs + [x, y] + ys) == StanzaConf(encode, did, xs + [y, x] + ys)
  {
    SwapEncodable(encode, xs, x, y, ys);
    HostSwap(xs, x, y, ys);
    PortRootSwap(encode, xs, x, y, ys);
  }

  // ---------------------------------------------------------------- what the settings mean

  /** The i-th setting is the first host that is not empty. */
  ghost predicate IsFirstHost(xs: seq<Setting>, i: nat) {
    i < |xs| && xs[i].HostIs? && xs[i].s != "" && forall j | 0 <= j < i :: !(xs[j].HostIs? && xs[j].s != "")
  }

  ghost predicate IsLast(xs: seq<Setting>, key: Token, i: nat) {
    i < |xs| && KeyToken(xs[i]) == key && forall j | i < j < |xs| :: KeyToken(xs[j]) != key
  }

  /** The domain is at the first host that is not empty, cut to 255 characters. */
  lemma {:induction false} HostMeans(xs: seq<Setting>, i: nat)
    requires IsFirstHost(xs, i)
    ensures FirstHost(xs) <= xs[i].s && |FirstHost(xs)| == if |xs[i].s| < 255 then |xs[i].s| else 255
    decreases |xs|
  {
    if i > 0 {
      assert forall j | 0 <= j < |xs| - 1 :: xs[1..][j] == xs[j + 1];
      HostMeans(xs[1..], i - 1);
    }
  }

  /** Its port is the last one given, cut to 16 bits. */
  lemma {:induction false} PortMeans(xs: seq<Setting>, i: nat)
    requires IsLast(xs, Port, i)
    ensures LastPort(xs) == xs[i].v % 0x1_0000
    decreases |xs|
  {
    if i < |xs| - 1 { PortMeans(xs[..|xs| - 1], i); }
  }

  /** Its entity root is the last one given. */
  lemma {:induction false} RootMeans(encode: Encoder, xs: seq<Setting>, i: nat)
    requires IsLast(xs, Root, i) && Encodable(encode, xs)
    ensures Some(LastRoot(encode, xs)) == encode(xs[i].s)
    decreases |xs|
  {
    if i < |xs| - 1 { RootMeans(encode, xs[..|xs| - 1], i); }
  }

  lemma {:induction false} DefaultsMean(encode: Encoder, xs: seq<Setting>)
    requires Encodable(encode, xs)
    ensures (forall i | 0 <= i < |xs| :: !xs[i].PortIs?) ==> LastPort(xs) == 4743
    ensures (forall i | 0 <= i < |xs| :: !xs[i].RootIs?) ==> LastRoot(encode, xs) == ROOT_PATH
    decreases |xs|
  {
    if xs != [] { DefaultsMean(encode, xs[..|xs| - 1]); }
  }

  // ---------------------------------------------------------------- a configuration written and read

  /** The stanza one writes for a domain; text is the entity root as text. */
  ghost function Written(conf: DomainConf, text: string): Segment {
    Stanza(if conf.did == 0 then Default else Int(conf.did), [], [HostIs(conf.host), PortIs(conf.port), RootIs(text)])
  }

  /** A domain that can be written: its host has 1 to 255 characters, and text stands for its entity root. */
  ghost predicate Writable(encode: Encoder, conf: DomainConf, text: string) {
    0 < |conf.host| <= 255 && encode(text) == Some(conf.root)
  }

  lemma WrittenMeans(encode: Encoder, conf: DomainConf, text: string)
    requires Writable(encode, conf, text)
    ensures var g := Written(conf, text);
      Ok(encode, g) && IdOf(g) == conf.did && StanzaConf(encode, conf.did, g.settings) == conf
  {
    var xs := [HostIs(conf.host), PortIs(conf.port), RootIs(text)];
    HostMeans(xs, 0);
    PortMeans(xs, 1);
    RootMeans(encode, xs, 2);
    assert FirstHost(xs) == conf.host;
  }

  ghost function WrittenAll(confs: seq<DomainConf>, texts: seq<string>): (gs: seq<Segment>)
    requires |texts| == |confs|
    ensures |gs| == |confs|
  {
    seq(|confs|, i requires 0 <= i < |confs| => Written(confs[i], texts[i]))
  }

  /**
   * Writing out any domains with different ids and loading the file into an empty table gives back exactly those
   * domains: id, host, port and entity root.
   */
  lemma WrittenRoundTrip(encode: Encoder, confs: seq<DomainConf>, texts: seq<string>, ep: EntityPath)
    requires |texts| == |confs| && forall i | 0 <= i < |confs| :: Writable(encode, confs[i], texts[i])
    requires forall i, j | 0 <= i < j < |confs| :: confs[i].did != confs[j].did
    ensures var t := Load(encode, RenderAll(WrittenAll(confs, texts)), Config(map[], ep)).domains;
      && (forall i | 0 <= i < |confs| :: confs[i].did in t && t[confs[i].did] == confs[i])
      && (forall d | d in t :: exists i :: 0 <= i < |confs| && confs[i].did == d)
  {
    var gs := WrittenAll(confs, texts);
    forall i | 0 <= i < |gs|
      ensures Ok(encode, gs[i]) && gs[i].Stanza? && IdOf(gs[i]) == confs[i].did
      ensures StanzaConf(encode, confs[i].did, gs[i].settings) == confs[i]
    {
      assert gs[i] == Written(confs[i], texts[i]);
      WrittenMeans(encode, confs[i], texts[i]);
    }
    DistinctStanzasRoundTrip(encode, gs, ep);
  }

  // ---------------------------------------------------------------- the machine's own path

  ghost predicate IsLastEntity(gs: seq<Segment>, i: nat) {
    i < |gs| && gs[i].MyEntity? && forall j | i < j < |gs| :: !gs[j].MyEntity?
  }

  lemma {:induction false} EntityFold(encode: Encoder, gs: seq<Segment>, c: Config)
    requires AllOk(encode, gs)
    ensures (forall j | 0 <= j < |gs| :: !gs[j].MyEntity?) ==> Effects(encode, gs, c).myEntity == c.myEntity
    ensures forall i: nat | IsLastEntity(gs, i) :: Some(Effects(encode, gs, c).myEntity) == encode(gs[i].s)
    decreases |gs|
  {
    if gs != [] {
      var rest := gs[1..];
      assert forall j | 0 <= j < |rest| :: rest[j] == gs[j + 1];
      EntityFold(encode, rest, Effect(encode, gs[0], c));
      forall i: nat | IsLastEntity(gs, i) ensures Some(Effects(encode, gs, c).myEntity) == encode(gs[i].s) {
        if i > 0 { assert IsLastEntity(rest, i - 1); }
      }
    }
  }

  /** Loading a file sets the path of the machine to that of its last well-formed my_entity line, if it has one. */
  lemma LastEntityCounts(encode: Encoder, gs: seq<Segment>, k: Cut, c: Config)
    requires AllOk(encode, gs) && OkCut(encode, k)
    ensures var ep := Load(encode, RenderAll(gs) + RenderCut(k), c).myEntity;
      && ((forall j | 0 <= j < |gs| :: !gs[j].MyEntity?) ==> ep == c.myEntity)
      && forall i: nat | IsLastEntity(gs, i) :: Some(ep) == encode(gs[i].s)
  {
    FileLoad(encode, gs, k, c);
    EntityFold(encode, gs, c);
  }

  // ---------------------------------------------------------------- ids out of range

  /** The tokens of "domain v { host = ... }". */
  ghost function HostStanza(v: nat, host: string): Tokens {
    [Domain, Int(v), LeftCurly, Host, EqualSign, Str(host), RightCurly]
  }

  lemma HostStanzaLoads(encode: Encoder, v: nat, host: string, c: Config)
    requires v > 0 && host != ""
    ensures Load(encode, HostStanza(v, host), c)
         == WithDomain(c, DomainConf(v % TWO32, Clip(host), DEFAULT_DAEMON_PORT, ROOT_PATH))
  {
    var xs := [HostIs(host)];
    var g := Stanza(Int(v), [], xs);
    assert xs[1..] == [] && xs[..0] == [];
    assert RenderSettings(xs) == [Host, EqualSign, Str(host)];
    assert Render(g) == HostStanza(v, host) && RenderAll([g][1..]) == [];
    assert RenderAll([g]) + RenderCut(Nothing) == HostStanza(v, host);
    FileLoad(encode, [g], Nothing, c);
    assert Effects(encode, [g][1..], Effect(encode, g, c)) == Effect(encode, g, c);
    assert FirstHost(xs) == Clip(host) && LastPort(xs) == DEFAULT_DAEMON_PORT && LastRoot(encode, xs) == ROOT_PATH;
    assert Effect(encode, g, c) == WithDomain(c, StanzaConf(encode, v % TWO32, xs));
  }

  /**
   * The id 0 is refused, but only before the number is cut to 32 bits: a number configures domain 0 exactly when it
   * is a positive multiple of 2^32.
   */
  lemma DomainZeroIff(tok: Token)
    ensures DomainId(tok) == Some(DEFAULT_DOMAIN_ID) <==> tok.Default? || (tok.Int? && tok.v > 0 && tok.v % TWO32 == 0)
  {
  }

  /** The stanza for 2^32 replaces domain 0. */
  lemma DomainZeroReplaced(encode: Encoder, host: string, c: Config)
    requires host != ""
    ensures Load(encode, HostStanza(TWO32, host), c).domains
         == c.domains[0 := DomainConf(0, Clip(host), DEFAULT_DAEMON_PORT, ROOT_PATH)]
  {
    HostStanzaLoads(encode, TWO32, host, c);
  }

  /** The file can configure a domain whose id is the end marker, and then the end marker is not refused. */
  lemma LastEntryConfigured(encode: Encoder, host: string, c: Config)
    requires host != "" && |host| < MAX_TEXT_BUFFER_LENGTH
    ensures var t := Load(encode, HostStanza(0xFFFF_FFFF, host), c).domains;
            LAST_ENTRY in t && EntryGet(t, LAST_ENTRY).0 == SA_OK
  {
    HostStanzaLoads(encode, 0xFFFF_FFFF, host, c);
    assert LAST_ENTRY in Load(encode, HostStanza(0xFFFF_FFFF, host), c).domains.Keys;
  }
}
