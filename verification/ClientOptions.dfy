/** ohc_domain_add_by_options of clients/clients.c: the domains the command line and the environment ask for. */
module ClientOptions {
  import opened Hpi
  import opened DomainTable
  import ClientConf
  import CText
  import HostOption

  /** The options it reads, after ohc_option_parse, and the two environment variables. */
  datatype Options = Options(withDaemonHost: bool, daemonHost: string, daemonPort: U16, domainId: U32,
                             envHost: Option<string>, envPort: Option<string>)

  /** The domain asked for by -N or, failing that, by the environment. */
  ghost function Wanted(o: Options): (string, U16)
    requires o.withDaemonHost || o.envHost.Some?
  {
    if o.withDaemonHost then (o.daemonHost, o.daemonPort) else EnvDomain(o)
  }

  ghost function EnvDomain(o: Options): (string, U16)
    requires o.envHost.Some?
  {
    (HostOption.TextBuffer(o.envHost.value),
     if o.envPort.None? then DEFAULT_DAEMON_PORT else CText.Atoi(o.envPort.value) % 0x1_0000)
  }

  /** -N or the environment asks for a domain. */
  ghost predicate Asks(o: Options) {
    o.withDaemonHost || o.envHost.Some?
  }

  /**
   * The domain wanted is that of -N, or else that of the environment; of the latter the host is taken if it is shorter
   * than 255 characters, and the port printed there, or 4743 without one.
   */
  lemma WantedMeans(o: Options)
    requires Asks(o)
    ensures o.withDaemonHost ==> Wanted(o) == (o.daemonHost, o.daemonPort)
    ensures !o.withDaemonHost ==> Wanted(o) == EnvDomain(o)
    ensures o.envHost.Some? ==> EnvDomain(o).0 == if |o.envHost.value| < 255 then o.envHost.value else ""
    ensures o.envHost.Some? && o.envPort.None? ==> EnvDomain(o).1 == 4743
    ensures forall p: U16 | o.envHost.Some? && o.envPort == Some(CText.Decimal(p)) :: EnvDomain(o).1 == p
  {
    forall p: U16 | o.envHost.Some? && o.envPort == Some(CText.Decimal(p)) ensures EnvDomain(o).1 == p {
      CText.AtoiDecimal(p);
    }
  }

  /** The add for the domain id of -D, or with a generated id without it. */
  ghost function Request(domainId: U32, d: (string, U16)): AddOp {
    if domainId == UNSPECIFIED_DOMAIN_ID then Auto(d.0, d.1, ROOT_PATH) else ById(domainId, d.0, d.1, ROOT_PATH)
  }

  /** The adds carried out, in order: the environment's domain comes second, under a generated id, when -N is given. */
  ghost function Adds(o: Options): seq<AddOp> {
    if !o.withDaemonHost && o.envHost.None? then [] else
      [Request(o.domainId, Wanted(o))]
      + if o.withDaemonHost && o.envHost.Some?
        then [Request(UNSPECIFIED_DOMAIN_ID, EnvDomain(o))] else []
  }

  /** The adds up to the first that fails. */
  ghost function Carried(t: Table, ops: seq<AddOp>): (Table, SaErrorT)
    decreases |ops|
  {
    if ops == [] then (t, SA_OK) else
      var (t1, r) := Add(t, ops[0]);
      if r.rv != SA_OK then (t1, r.rv) else Carried(t1, ops[1..])
  }

  lemma CarriedOne(t: Table, a: AddOp)
    ensures Carried(t, [a]) == (Add(t, a).0, Add(t, a).1.rv)
  {
    assert Carried(Add(t, a).0, [a][1..]) == (Add(t, a).0, SA_OK);
  }

  lemma CarriedTwo(t: Table, a: AddOp, b: AddOp)
    ensures Carried(t, [a]) == (Add(t, a).0, Add(t, a).1.rv)
    ensures Add(t, a).1.rv == SA_OK ==> Carried(t, [a, b]) == (Add(Add(t, a).0, b).0, Add(Add(t, a).0, b).1.rv)
    ensures Add(t, a).1.rv != SA_OK ==> Carried(t, [a, b]) == (Add(t, a).0, Add(t, a).1.rv)
  {
    CarriedOne(t, a);
    CarriedOne(Add(t, a).0, b);
    assert [a, b][1..] == [b];
  }

  method AddByOptions(domains: ClientConf.Domains, o: Options) returns (rv: SaErrorT, domainId: U32)
    modifies domains`table, domains`lockDepth, domains`sections
    ensures domains.lockDepth == old(domains.lockDepth)
    ensures (domains.table, rv) == Carried(old(domains.table), Adds(o))
    ensures domainId == if rv == SA_OK && o.domainId == UNSPECIFIED_DOMAIN_ID && Asks(o)
                        then NewDomainId(old(domains.table).Keys) else o.domainId
  {
    rv, domainId := SA_OK, o.domainId;
    ghost var t := domains.table;
    ghost var wanted := if Adds(o) == [] then Auto("", 0, ROOT_PATH) else Adds(o)[0];
    ghost var second := if |Adds(o)| == 2 then Adds(o)[1] else wanted;
    CarriedTwo(t, wanted, second);
    assert Adds(o) == [] || Adds(o) == [wanted] || Adds(o) == [wanted, second];
    if o.withDaemonHost {
      if domainId == UNSPECIFIED_DOMAIN_ID {
        var did;
        rv, did := domains.AddDomainConf(o.daemonHost, o.daemonPort, ROOT_PATH);
        if rv != SA_OK { return; }
        domainId := did;
      } else {
        rv := domains.AddDomainConfById(domainId, o.daemonHost, o.daemonPort, ROOT_PATH);
        if rv != SA_OK { return; }
      }
      assert domains.table == Add(t, wanted).0;
    }
    if o.envHost.Some? {
      var host := HostOption.TextBuffer(o.envHost.value);
      var port := if o.envPort.None? then DEFAULT_DAEMON_PORT else CText.Atoi(o.envPort.value) % 0x1_0000;
      if o.withDaemonHost {
        var did;
        rv, did := domains.AddDomainConf(host, port, ROOT_PATH);
        if rv != SA_OK { return; }
      } else if domainId == UNSPECIFIED_DOMAIN_ID {
        var did;
        rv, did := domains.AddDomainConf(host, port, ROOT_PATH);
        if rv != SA_OK { return; }
        domainId := did;
      } else {
        rv := domains.AddDomainConfById(domainId, host, port, ROOT_PATH);
        if rv != SA_OK { return; }
      }
    }
  }

  /**
   * The call fails only if a domain is asked for and -D names one that is reserved or already there, and then it adds
   * nothing: there is no failure behind the first add. With nothing asked for it does nothing.
   */
  lemma FailsIff(t: Table, o: Options)
    ensures Carried(t, Adds(o)).1 != SA_OK
       <==> Asks(o) && o.domainId != UNSPECIFIED_DOMAIN_ID
            && (o.domainId == DEFAULT_DOMAIN_ID || o.domainId in t)
    ensures Carried(t, Adds(o)).1 != SA_OK || !Asks(o) ==> Carried(t, Adds(o)).0 == t
    ensures Carried(t, Adds(o)).1 != SA_OK ==>
      Carried(t, Adds(o)).1 == if o.domainId == 0 then SA_ERR_HPI_INVALID_PARAMS else SA_ERR_HPI_DUPLICATE
  {
    if Adds(o) != [] {
      var a := Adds(o)[0];
      var b := if |Adds(o)| == 2 then Adds(o)[1] else a;
      CarriedTwo(t, a, b);
      assert Adds(o) == [a] || Adds(o) == [a, b];
    }
  }

  /** The entry d under id. */
  ghost predicate Names(t: Table, id: U32, d: (string, U16)) {
    id in t && t[id] == DomainConf(id, Clip(d.0), d.1, ROOT_PATH)
  }

  ghost predicate EnvAdded(t: Table, t': Table, o: Options, used: U32) {
    exists e :: e !in t && e != used && o.envHost.Some? && Names(t', e, EnvDomain(o))
  }

  /** What the options ask for, done: see OptionsEffectIff. */
  ghost predicate Honoured(t: Table, t': Table, o: Options)
    requires Asks(o)
  {
    var used := if o.domainId == UNSPECIFIED_DOMAIN_ID then NewDomainId(t.Keys) else o.domainId;
    && Extends(t, t') && used !in t && Names(t', used, Wanted(o))
    && (o.withDaemonHost && o.envHost.Some? ==> EnvAdded(t, t', o, used))
  }

  /** No id has its top bit set, or id 1 is free: the next automatic add takes an unused id. */
  ghost predicate Room(t: Table) {
    Small(t) || 1 !in t
  }

  /** What the caller can check beforehand. */
  ghost predicate OptionsFit(t: Table, o: Options) {
    if !(o.withDaemonHost && o.envHost.Some?) then o.domainId != UNSPECIFIED_DOMAIN_ID || Room(t)
    else if o.domainId == UNSPECIFIED_DOMAIN_ID then Small(t) && |Positive(t.Keys)| <= TWO31 - 2
    else (Small(t) && o.domainId < TWO31) || (1 !in t && o.domainId != 1)
  }

  /** The room for the second add. */
  lemma RoomAfter(t: Table, a: AddOp)
    requires WellKeyed(t) && Add(t, a).1.rv == SA_OK && OverwritesNothing(t, a)
    ensures var did := Add(t, a).1.did;
            Room(Add(t, a).0) <==> (Small(t) && did < TWO31) || (1 !in t && did != 1)
  {
    var t1 := Add(t, a).0;
    AddExtendsIff(t, a);
    assert t1.Keys == t.Keys + {Add(t, a).1.did};
    if Small(t1) {
      assert forall d | d in t :: d in t1.Keys;
      assert Add(t, a).1.did in t1.Keys;
    }
    if 1 !in t1 { assert 1 !in t1.Keys; }
  }

  /** With both hosts given the first add is the one for the daemon host. */
  lemma FitIffRoom(t: Table, o: Options)
    requires WellKeyed(t) && Asks(o) && Add(t, Adds(o)[0]).1.rv == SA_OK
    ensures OptionsFit(t, o)
       <==> OverwritesNothing(t, Adds(o)[0]) && (o.withDaemonHost && o.envHost.Some? ==> Room(Add(t, Adds(o)[0]).0))
  {
    var a := Adds(o)[0];
    AddExtendsIff(t, a);
    if OverwritesNothing(t, a) { RoomAfter(t, a); }
    NewDomainIdFreshIff(t.Keys);
    NewDomainIdStaysSmall(t);
    if o.domainId == UNSPECIFIED_DOMAIN_ID && !Small(t) { assert exists k :: k in t.Keys && TWO31 <= k; }
  }

  lemma HonouredOne(t: Table, o: Options)
    requires WellKeyed(t) && Asks(o) && !(o.withDaemonHost && o.envHost.Some?)
    requires Add(t, Adds(o)[0]).1.rv == SA_OK
    ensures Honoured(t, Add(t, Adds(o)[0]).0, o) <==> OverwritesNothing(t, Adds(o)[0])
  {
    AddExtendsIff(t, Adds(o)[0]);
  }

  lemma HonouredTwo(t: Table, o: Options)
    requires WellKeyed(t) && o.withDaemonHost && o.envHost.Some? && Add(t, Adds(o)[0]).1.rv == SA_OK
    ensures var t1 := Add(t, Adds(o)[0]).0;
            Honoured(t, Add(t1, Adds(o)[1]).0, o) <==> OverwritesNothing(t, Adds(o)[0]) && Room(t1)
  {
    var a, b := Adds(o)[0], Adds(o)[1];
    var t1 := Add(t, a).0;
    AddExtendsIff(t, a);
    AddExtendsIff(t1, b);
    var used, e := Add(t, a).1.did, NewDomainId(t1.Keys);
    var t2 := Add(t1, b).0;
    assert t1.Keys == t.Keys + {used} && t2.Keys == t1.Keys + {e};
    assert Names(t2, e, EnvDomain(o));
    if Room(t1) && OverwritesNothing(t, a) {
      assert e !in t1.Keys;
      assert EnvAdded(t, t2, o, used);
    }
  }

  /**
   * On success the options name a new domain at the host asked for, -N before the environment; given both, the
   * environment's domain is there under an id of its own; and nothing that was there is changed: all this exactly
   * when the options fit the table.
   */
  lemma OptionsEffectIff(t: Table, o: Options)
    requires WellKeyed(t) && Asks(o) && Carried(t, Adds(o)).1 == SA_OK
    ensures Honoured(t, Carried(t, Adds(o)).0, o) <==> OptionsFit(t, o)
  {
    var a := Adds(o)[0];
    var b := if |Adds(o)| == 2 then Adds(o)[1] else a;
    assert Adds(o) == [a] || Adds(o) == [a, b];
    CarriedTwo(t, a, b);
    FitIffRoom(t, o);
    if |Adds(o)| == 2 { HonouredTwo(t, o); } else { HonouredOne(t, o); }
  }

  /** With -D at 2^31 or above next to -N, the environment's host takes over domain 1. */
  lemma LargeDomainOption(t: Table, o: Options)
    requires WellKeyed(t) && 1 in t
    requires o.withDaemonHost && o.envHost.Some? && TWO31 <= o.domainId < UNSPECIFIED_DOMAIN_ID && o.domainId !in t
    ensures Names(Carried(t, Adds(o)).0, 1, EnvDomain(o))
  {
    var a, b := Adds(o)[0], Adds(o)[1];
    assert Adds(o) == [a, b];
    CarriedTwo(t, a, b);
    assert o.domainId in Add(t, a).0.Keys;
  }

  /**
   * Without -D, with an id of 2^31 or above in the table and domain 1 free, both adds pick id 1: the environment's
   * host replaces the -N host, and the options name it.
   */
  lemma EnvironmentOverridesHost(t: Table, o: Options)
    requires WellKeyed(t) && !Small(t) && 1 !in t
    requires o.withDaemonHost && o.envHost.Some? && o.domainId == UNSPECIFIED_DOMAIN_ID
    ensures Carried(t, Adds(o)).1 == SA_OK && NewDomainId(t.Keys) == 1
    ensures Names(Carried(t, Adds(o)).0, 1, EnvDomain(o))
  {
    var a, b := Adds(o)[0], Adds(o)[1];
    assert Adds(o) == [a, b];
    CarriedTwo(t, a, b);
    var high :| high in t && TWO31 <= high;
    assert high in Add(t, a).0.Keys;
  }
}
