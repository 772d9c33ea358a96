/** The mutable client configuration of baselib/conf.c: the domain table, the lock around it, and the config loader. */
module ClientConf {
  import opened Hpi
  import opened DomainTable
  import opened ConfParser
  import CText

  /** A GScanner over a token stream: what was read stays read, and the end repeats. */
  class Scanner {
    const tokens: Tokens
    var pos: nat

    ghost predicate Valid()
      reads this
    {
      pos <= |tokens|
    }

    ghost function Rest(): Tokens
      requires Valid()
      reads this
    {
      tokens[pos..]
    }

    constructor (tokens: Tokens)
      ensures Valid() && Rest() == tokens
    {
      this.tokens := tokens;
      pos := 0;
    }

    method PeekNextToken() returns (tok: Token)
      requires Valid()
      ensures tok == Head(Rest())
    {
      tok := if pos < |tokens| then tokens[pos] else Eof;
    }

    method GetNextToken() returns (tok: Token)
      requires Valid()
      modifies this`pos
      ensures Valid() && tok == Head(old(Rest())) && Rest() == Tail(old(Rest()))
    {
      tok := PeekNextToken();
      if pos < |tokens| {
        pos := pos + 1;
      }
    }

    /** get_next_good_token_in_domain_stanza */
    method GetNextGoodToken() returns (tok: Token)
      requires Valid()
      modifies this`pos
      ensures Valid() && (tok, Rest()) == SkipToGood(old(Rest()))
    {
      ghost var start := Rest();
      tok := GetNextToken();
      while !tok.RightCurly? && !tok.Host? && !tok.Port? && !tok.Root?
        invariant Valid()
        invariant SkipToGood(start) == if IsGood(tok) || tok.Eof? then (tok, Rest()) else SkipToGood(Rest())
        decreases |Rest()|, if tok.Eof? then 0 else 1
      {
        if tok.Eof? { break; }
        tok := GetNextToken();
      }
    }
  }

  /** The number of critical sections after taking a recursive lock that is held depth times. */
  function Entered(sections: nat, depth: nat): nat {
    if depth == 0 then sections + 1 else sections
  }

  class Domains {
    var table: Table
    var myEntity: EntityPath
    /** How often the one thread inside the recursive lock has entered it. */
    var lockDepth: nat
    /** How often the lock was taken from outside: every increase is a critical section of its own. */
    ghost var sections: nat
    const encode: Encoder

    ghost predicate Valid()
      reads this
    {
      WellKeyed(table)
    }

    ghost function Contents(): Config
      reads this
    {
      Config(table, myEntity)
    }

    method Lock()
      modifies this`lockDepth, this`sections
      ensures lockDepth == old(lockDepth) + 1 && sections == Entered(old(sections), old(lockDepth))
    {
      sections := Entered(sections, lockDepth);
      lockDepth := lockDepth + 1;
    }

    method Unlock()
      requires lockDepth > 0
      modifies this`lockDepth
      ensures lockDepth == old(lockDepth) - 1
    {
      lockDepth := lockDepth - 1;
    }

    /** The sorted list of g_hash_table_foreach with extract_keys; the table is only ever walked with the lock held. */
    method Keys() returns (keys: seq<U32>)
      requires lockDepth > 0
      ensures keys == SortedKeys(table.Keys)
    {
      keys := SortedKeys(table.Keys);
    }

    /** add_domain_conf; only ever called with the lock held. */
    method Insert(did: U32, host: string, port: U16, root: EntityPath)
      requires lockDepth > 0
      modifies this`table
      ensures table == old(table)[did := DomainConf(did, Clip(host), port, root)]
    {
      table := table[did := DomainConf(did, Clip(host), port, root)];
    }

    /** ohc_get_domain_conf */
    method GetDomainConf(did: U32) returns (dc: Option<DomainConf>)
      modifies this`lockDepth, this`sections
      ensures lockDepth == old(lockDepth) && sections == Entered(old(sections), old(lockDepth))
      ensures dc == if did in table then Some(table[did]) else None
    {
      Lock();
      dc := if did in table then Some(table[did]) else None;
      Unlock();
    }

    /** ohc_add_domain_conf: the loop looks for the last id before a gap. */
    method AddDomainConf(host: string, port: U16, root: EntityPath) returns (rv: SaErrorT, did: U32)
      modifies this`table, this`lockDepth, this`sections
      ensures lockDepth == old(lockDepth) && sections == Entered(old(sections), old(lockDepth))
      ensures (table, AddResult(rv, did)) == Add(old(table), Auto(host, port, root))
    {
      Lock();
      var keys := Keys();
      var prev := LastBeforeGap(keys, table.Keys);
      if prev == UNSPECIFIED_DOMAIN_ID || prev + 1 == UNSPECIFIED_DOMAIN_ID {
        // The two SA_ERR_HPI_OUT_OF_SPACE returns: the gap search never gets this far.
        assert false;
      }
      did := prev + 1;
      Insert(did, host, port, root);
      Unlock();
      rv := SA_OK;
    }

    /** ohc_add_domain_conf_by_id */
    method AddDomainConfById(did: U32, host: string, port: U16, root: EntityPath) returns (rv: SaErrorT)
      modifies this`table, this`lockDepth, this`sections
      ensures lockDepth == old(lockDepth)
      ensures sections == if ReservedId(did) then old(sections) else Entered(old(sections), old(lockDepth))
      ensures (table, AddResult(rv, did)) == Add(old(table), ById(did, host, port, root))
    {
      if did == UNSPECIFIED_DOMAIN_ID || did == DEFAULT_DOMAIN_ID {
        return SA_ERR_HPI_INVALID_PARAMS;
      }
      Lock();
      var dc := GetDomainConf(did);
      if dc.Some? {
        Unlock();
        return SA_ERR_HPI_DUPLICATE;
      }
      Insert(did, host, port, root);
      Unlock();
      rv := SA_OK;
    }

    /** ohc_get_next_domain_conf */
    method GetNextDomainConf(entryId: U32) returns (dc: Option<DomainConf>, next: U32)
      requires table.Keys != {}
      modifies this`lockDepth, this`sections
      ensures lockDepth == old(lockDepth) && sections == Entered(old(sections), old(lockDepth))
      ensures (dc, next) == Cursor(table, entryId)
    {
      Lock();
      var keys := Keys();
      FirstIsLeast(table.Keys, keys);
      // DomainId is used for EntryId, as a C int.
      var did := if entryId == FIRST_ENTRY then Signed(keys[0]) else Signed(entryId);
      CastBack(if entryId == FIRST_ENTRY then keys[0] else entryId);
      dc, next := None, LAST_ENTRY;
      if Unsigned(did) in table {
        dc := Some(table[Unsigned(did)]);
        var nextDid := SearchNext(keys, did, table.Keys);
        if nextDid != did {
          next := Unsigned(nextDid);
        }
      }
      Unlock();
    }

    /** oHpiDomainEntryGet: the entry found is reported under the id that was asked for. */
    method DomainEntryGet(entryId: U32) returns (rv: SaErrorT, next: U32, entry: Option<DomainConf>)
      requires table.Keys != {}
      modifies this`lockDepth, this`sections
      ensures lockDepth == old(lockDepth) && sections == Entered(old(sections), old(lockDepth))
      ensures (rv, next, entry) == EntryGet(table, entryId)
    {
      var dc;
      dc, next := GetNextDomainConf(entryId);
      if dc.None? {
        return SA_ERR_HPI_NOT_PRESENT, next, None;
      }
      if |dc.value.host| >= MAX_TEXT_BUFFER_LENGTH {
        return SA_ERR_HPI_INVALID_PARAMS, next, None;
      }
      rv, entry := SA_OK, Some(DomainConf(entryId, dc.value.host, dc.value.port, dc.value.root));
    }

    // -------------------------------------------------------------- the configuration file

    /** The body of the stanza loop: the rest of one setting. */
    method ReadSetting(sc: Scanner, key: Token, host0: string, port0: U32, root0: EntityPath)
      returns (ok: bool, host: string, port: U32, root: EntityPath)
      requires sc.Valid()
      modifies sc`pos
      ensures sc.Valid()
      ensures ParseSetting(encode, key, old(sc.Rest()), Fields(host0, port0, root0))
           == if ok then GoodSetting(Fields(host, port, root), sc.Rest()) else BadSetting(sc.Rest())
    {
      ok, host, port, root := false, host0, port0, root0;
      if key.Host? {
        var tok := sc.GetNextToken();
        if !tok.EqualSign? { return; }
        tok := sc.GetNextToken();
        if !tok.Str? { return; }
        if host == "" {
          host := Clip(tok.s);
        }
      } else if key.Port? {
        var tok := sc.GetNextToken();
        if !tok.EqualSign? { return; }
        tok := sc.GetNextToken();
        if !tok.Int? { return; }
        port := tok.v % TWO32;
      } else if key.Root? {
        var tok := sc.GetNextToken();
        if !tok.EqualSign? { return; }
        tok := sc.GetNextToken();
        if !tok.Str? { return; }
        var ep := encode(tok.s);
        if ep.None? { return; }
        root := ep.value;
      } else {
        return;
      }
      ok := true;
    }

    /** The settings of a stanza, and its domain entered into the table. */
    method ProcessStanza(sc: Scanner, did: U32) returns (rc: int)
      requires lockDepth > 0 && sc.Valid()
      modifies this`table, sc`pos
      ensures sc.Valid() && sc.Rest() == StanzaBody(encode, did, old(sc.Rest())).rest
      ensures match StanzaBody(encode, did, old(sc.Rest()))
        case Failed(code, _) => rc == code && table == old(table)
        case Parsed(conf, _) => rc == 0 && table == old(table)[conf.did := conf]
    {
      var host := "";
      var port: U32 := DEFAULT_DAEMON_PORT;
      var root: EntityPath := ROOT_PATH;
      ghost var result := StanzaBody(encode, did, sc.Rest());
      var tok := sc.GetNextGoodToken();
      while !tok.Eof? && !tok.RightCurly?
        invariant sc.Valid() && table == old(table)
        invariant StanzaLoop(encode, did, tok, sc.Rest(), Fields(host, port, root)) == result
        decreases |sc.Rest()|
      {
        var ok;
        ok, host, port, root := ReadSetting(sc, tok, host, port, root);
        if !ok { return -10; }
        tok := sc.GetNextToken();
      }
      if tok.Eof? { return -10; }
      if host == "" { return -10; }
      Insert(did, host, port % 0x1_0000, root);
      rc := 0;
    }

    /** process_domain_token */
    method ProcessDomainToken(sc: Scanner) returns (rc: int)
      requires lockDepth > 0 && sc.Valid()
      modifies this`table, sc`pos
      ensures sc.Valid() && sc.Rest() == ProcessDomain(encode, old(sc.Rest())).rest
      ensures match ProcessDomain(encode, old(sc.Rest()))
        case Failed(code, _) => rc == code && table == old(table)
        case Parsed(conf, _) => rc == 0 && table == old(table)[conf.did := conf]
    {
      var tok := sc.GetNextToken();
      if !tok.Domain? { return -1; }
      tok := sc.GetNextToken();
      var did: U32;
      if tok.Default? {
        did := DEFAULT_DOMAIN_ID;
      } else if tok.Int? {
        if tok.v == 0 { return -2; }
        did := tok.v % TWO32;
      } else {
        return -3;
      }
      tok := sc.GetNextToken();
      if !tok.LeftCurly? { return -10; }
      rc := ProcessStanza(sc, did);
    }

    /** process_my_entity_token */
    method ProcessMyEntityToken(sc: Scanner) returns (rc: int)
      requires sc.Valid()
      modifies this`myEntity, sc`pos
      ensures sc.Valid()
      ensures var r := ProcessMyEntity(encode, old(sc.Rest()));
        rc == r.0 && sc.Rest() == r.2 && myEntity == if r.1.Some? then r.1.value else old(myEntity)
    {
      var tok := sc.GetNextToken();
      if !tok.MyEp? { return -1; }
      tok := sc.GetNextToken();
      if !tok.EqualSign? { return -2; }
      tok := sc.GetNextToken();
      if !tok.Str? { return -3; }
      var ep := encode(tok.s);
      if ep.None? { return -4; }
      myEntity := ep.value;
      rc := 0;
    }

    /** load_client_config, from the open file on */
    method LoadClientConfig(tokens: Tokens)
      requires lockDepth > 0
      modifies this`table, this`myEntity
      ensures Contents() == Load(encode, tokens, old(Contents()))
    {
      var sc := new Scanner(tokens);
      var done := false;
      while !done
        invariant sc.Valid() && fresh(sc)
        invariant done ==> sc.Rest() == [] || sc.Rest()[0].Eof?
        invariant Load(encode, sc.Rest(), Contents()) == Load(encode, tokens, old(Contents()))
        decreases !done, |sc.Rest()|
      {
        var tok := sc.PeekNextToken();
        ghost var rest := sc.Rest();
        if tok.Eof? {
          done := true;
        } else if tok.Domain? {
          var _ := ProcessDomainToken(sc);
        } else if tok.MyEp? {
          var _ := ProcessMyEntityToken(sc);
        } else {
          tok := sc.GetNextToken();
        }
      }
    }

    /**
     * The first call of ohc_conf_init; config is None when the file cannot be opened. What the file configures stays;
     * if that leaves out the default domain, it is added with the host and port of the environment, or "localhost"
     * and the default port.
     */
    constructor (encode: Encoder, config: Option<Tokens>, envHost: Option<string>, envPort: Option<string>)
      ensures Valid() && lockDepth == 0 && sections == 1 && this.encode == encode
      ensures var loaded := if config.Some? then Load(encode, config.value, NOTHING_LOADED) else NOTHING_LOADED;
        && myEntity == loaded.myEntity
        && (DEFAULT_DOMAIN_ID in loaded.domains ==> table == loaded.domains)
        && (DEFAULT_DOMAIN_ID !in loaded.domains ==>
              && DEFAULT_DOMAIN_ID in table && table - {DEFAULT_DOMAIN_ID} == loaded.domains
              && IsDefaultDomain(table[DEFAULT_DOMAIN_ID], envHost, envPort))
    {
      this.encode := encode;
      table, myEntity, lockDepth, sections := map[], UNSET_PATH, 0, 0;
      new;
      Lock();
      if config.Some? {
        LoadClientConfig(config.value);
        LoadKeepsKeys(encode, config.value, NOTHING_LOADED);
      }
      ghost var loaded := table;
      var dc := GetDomainConf(DEFAULT_DOMAIN_ID);
      if dc.None? {
        var host := if envHost.Some? then envHost.value else "localhost";
        var port := if envPort.Some? then CText.Atoi(envPort.value) % 0x1_0000 else DEFAULT_DAEMON_PORT;
        Insert(DEFAULT_DOMAIN_ID, host, port, ROOT_PATH);
        EnvironmentPort(envPort);
        assert table - {DEFAULT_DOMAIN_ID} == loaded;
      }
      Unlock();
    }
  }

  /** The static initialiser of my_entity. */
  const UNSPEC := Entity(0, 0)
  const UNSET_PATH: EntityPath :=
    [UNSPEC, UNSPEC, UNSPEC, UNSPEC, UNSPEC, UNSPEC, UNSPEC, UNSPEC,
     UNSPEC, UNSPEC, UNSPEC, UNSPEC, UNSPEC, UNSPEC, UNSPEC, UNSPEC]

  const NOTHING_LOADED := Config(map[], UNSET_PATH)

  /** The default domain as the environment gives it: host and port, each with its default, and no entity root. */
  ghost predicate IsDefaultDomain(dc: DomainConf, envHost: Option<string>, envPort: Option<string>) {
    && dc.did == 0 && dc.root == ROOT_PATH
    && (envHost.None? ==> dc.host == "localhost")
    && (envHost.Some? ==>
          dc.host <= envHost.value && |dc.host| == if |envHost.value| < 255 then |envHost.value| else 255)
    && (envPort.None? ==> dc.port == 4743)
    && (envPort.Some? ==> dc.port == CText.Atoi(envPort.value) % 0x1_0000)
    && forall p: U16 | envPort == Some(CText.Decimal(p)) :: dc.port == p
  }

  lemma EnvironmentPort(envPort: Option<string>)
    ensures forall p: U16 | envPort == Some(CText.Decimal(p)) :: CText.Atoi(envPort.value) % 0x1_0000 == p
  {
    forall p: U16 | envPort == Some(CText.Decimal(p)) ensures CText.Atoi(envPort.value) % 0x1_0000 == p {
      CText.AtoiDecimal(p);
    }
  }

  /** Loading keeps every entry under its own id. */
  lemma {:induction false} LoadKeepsKeys(encode: Encoder, ts: Tokens, c: Config)
    requires WellKeyed(c.domains)
    ensures WellKeyed(Load(encode, ts, c).domains)
    decreases |ts|
  {
    match Head(ts)
    case Eof =>
    case Domain =>
      var r := ProcessDomain(encode, ts);
      LoadKeepsKeys(encode, r.rest, if r.Parsed? then WithDomain(c, r.conf) else c);
    case MyEp =>
      var r := ProcessMyEntity(encode, ts);
      LoadKeepsKeys(encode, r.2, if r.1.Some? then c.(myEntity := r.1.value) else c);
    case _ =>
      LoadKeepsKeys(encode, Tail(ts), c);
  }

  /** The gap search of ohc_add_domain_conf: the id before the first gap, or the last one. */
  method LastBeforeGap(ks: seq<U32>, ghost keys: set<U32>) returns (prev: U32)
    requires Lists(ks, keys) && Ascending(ks)
    ensures prev < TWO31 && prev + 1 == NewDomainId(keys)
  {
    prev := 0;
    var i := 0;
    while i < |ks|
      invariant i <= |ks|
      invariant prev == if i == 0 then 0 else ks[i - 1]
      invariant i > 0 ==> Signed(ks[0]) >= 0
      invariant forall m: nat | 0 < m <= prev :: m in keys
    {
      var item := ks[i];
      if (prev + 1) % TWO32 < item { break; }
      prev := GapStep(ks, keys, i, prev);
      i := i + 1;
    }
    GapFound(keys, ks, i, prev);
  }

  /** No gap before ks[i]: the id itself continues the run. */
  method GapStep(ks: seq<U32>, ghost keys: set<U32>, i: nat, ghost prev: U32) returns (item: U32)
    requires Lists(ks, keys) && Ascending(ks) && i < |ks|
    requires prev == if i == 0 then 0 else ks[i - 1]
    requires i > 0 ==> Signed(ks[0]) >= 0
    requires forall m: nat | 0 < m <= prev :: m in keys
    requires ks[i] <= (prev + 1) % TWO32
    ensures item == ks[i] && Signed(ks[0]) >= 0 && forall m: nat | 0 < m <= item :: m in keys
  {
    item := ks[i];
    assert i > 0 ==> Signed(ks[i - 1]) < Signed(ks[i]);
    assert i > 1 ==> Signed(ks[0]) < Signed(ks[i - 1]);
    assert item in keys;
  }

  lemma HighSortsFirst(keys: set<U32>, ks: seq<U32>, k: U32)
    requires Lists(ks, keys) && Ascending(ks) && k in keys && TWO31 <= k
    ensures ks != [] && Signed(ks[0]) < 0
  {
    var j :| 0 <= j < |ks| && ks[j] == k;
    assert j > 0 ==> Signed(ks[0]) < Signed(ks[j]);
  }

  lemma NotBetween(keys: set<U32>, ks: seq<U32>, i: nat, x: U32)
    requires Lists(ks, keys) && Ascending(ks) && i <= |ks|
    requires i > 0 ==> Signed(ks[i - 1]) < Signed(x)
    requires i < |ks| ==> Signed(x) < Signed(ks[i])
    ensures x !in keys
  {
    forall j | 0 <= j < |ks| ensures ks[j] != x {
      assert j < i - 1 ==> Signed(ks[j]) < Signed(ks[i - 1]);
      assert j > i ==> Signed(ks[i]) < Signed(ks[j]);
    }
  }

  /** Where the gap search stops: before an id of 2^31 or above if there is one, else before the least free id. */
  lemma GapFound(keys: set<U32>, ks: seq<U32>, i: nat, prev: U32)
    requires Lists(ks, keys) && Ascending(ks) && i <= |ks|
    requires prev == if i == 0 then 0 else ks[i - 1]
    requires i > 0 ==> Signed(ks[0]) >= 0
    requires forall m: nat | 0 < m <= prev :: m in keys
    requires i < |ks| ==> (prev + 1) % TWO32 < ks[i]
    ensures prev < TWO31 && prev + 1 == NewDomainId(keys)
  {
    if exists k :: k in keys && TWO31 <= k {
      var k :| k in keys && TWO31 <= k;
      HighSortsFirst(keys, ks, k);
    } else {
      if i > 0 { assert ks[i - 1] in keys; }
      if i < |ks| { assert ks[i] in keys; }
      if prev + 1 < TWO31 { NotBetween(keys, ks, i, prev + 1); }
      assert IsLeastFree(keys, prev + 1);
      LeastFreeUnique(keys, prev + 1, NewDomainId(keys));
    }
  }

  lemma CastBack(d: U32)
    ensures -TWO31 <= Signed(d) < TWO31 && Unsigned(Signed(d)) == d
  {
  }

  lemma FirstIsLeast(keys: set<U32>, ks: seq<U32>)
    requires keys != {} && Lists(ks, keys) && Ascending(ks)
    ensures ks != [] && ks[0] == LeastKey(keys)
  {
    var j :| 0 <= j < |ks| && ks[j] == LeastKey(keys);
    assert ks[0] in keys;
    assert j > 0 ==> Signed(ks[0]) < Signed(ks[j]);
  }

  /** The search of ohc_get_next_domain_conf for the first id above did, among C ints. */
  method SearchNext(ks: seq<U32>, did: int, ghost keys: set<U32>) returns (nextDid: int)
    requires Lists(ks, keys) && Ascending(ks) && -TWO31 <= did < TWO31 && Unsigned(did) in keys
    ensures -TWO31 <= nextDid < TWO31
    ensures NextEntryId(keys, Unsigned(did)) == if nextDid == did then LAST_ENTRY else Unsigned(nextDid)
  {
    nextDid := Signed(UNSPECIFIED_DOMAIN_ID);
    var i := 0;
    while i < |ks| && nextDid <= did
      invariant i <= |ks|
      invariant nextDid == if i == 0 then -1 else Signed(ks[i - 1])
      invariant i > 1 ==> Signed(ks[i - 2]) <= did
      invariant i > 0 ==> -1 <= did
    {
      nextDid := Signed(ks[i]);
      i := i + 1;
    }
    SearchEnded(keys, ks, Unsigned(did), i, nextDid);
  }

  /** Where the search for the next entry stops. */
  lemma SearchEnded(keys: set<U32>, ks: seq<U32>, did: U32, i: nat, nextDid: int)
    requires Lists(ks, keys) && Ascending(ks) && did in keys && i <= |ks|
    requires nextDid == if i == 0 then -1 else Signed(ks[i - 1])
    requires i > 1 ==> Signed(ks[i - 2]) <= Signed(did)
    requires i > 0 ==> -1 <= Signed(did)
    requires i == |ks| || Signed(did) < nextDid
    ensures NextEntryId(keys, did) == if nextDid == Signed(did) then LAST_ENTRY else Unsigned(nextDid)
  {
    if i > 0 {
      var at :| 0 <= at < |ks| && ks[at] == did;
      NextInOrder(keys, ks, at);
      forall j | 0 <= j < |ks| && j < at ensures Signed(ks[j]) < Signed(ks[at]) {}
      forall j | at < j < |ks| ensures Signed(ks[at]) < Signed(ks[j]) {}
    }
  }
}
