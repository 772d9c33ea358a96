/** The token-level configuration parser of baselib/conf.c as functions on the tokens still unread. */
module ConfParser {
  import opened Hpi
  import opened DomainTable

  datatype Token =
    | Eof
    | Domain
    | Default
    | Host
    | Port
    | Root
    | MyEp
    | LeftCurly
    | RightCurly
    | EqualSign
    | Int(v: nat)
    | Str(s: string)
    | Other(code: int)

  type Tokens = seq<Token>

  /** oh_encode_entitypath, whose text format is a parameter of the model. */
  type Encoder = string -> Option<EntityPath>

  /** g_scanner_get_next_token: the token returned and what is left; at the end it keeps returning Eof. */
  function Head(ts: Tokens): Token {
    if ts == [] then Eof else ts[0]
  }

  function Tail(ts: Tokens): Tokens {
    if ts == [] then [] else ts[1..]
  }

  predicate IsGood(tok: Token) {
    tok.RightCurly? || tok.Host? || tok.Port? || tok.Root?
  }

  /** get_next_good_token_in_domain_stanza */
  function SkipToGood(ts: Tokens): (r: (Token, Tokens))
    ensures |r.1| <= |ts| && (!r.0.Eof? ==> |r.1| < |ts| && IsGood(r.0))
    decreases |ts|
  {
    var tok := Head(ts);
    if IsGood(tok) || tok.Eof? then (tok, Tail(ts)) else SkipToGood(Tail(ts))
  }

  /** The local variables of process_domain_token. */
  datatype Fields = Fields(host: string, port: U32, root: EntityPath)

  const INITIAL_FIELDS := Fields("", DEFAULT_DAEMON_PORT, ROOT_PATH)

  datatype SettingResult = BadSetting(rest: Tokens) | GoodSetting(fields: Fields, rest: Tokens)

  /** One pass of the loop body, with the key already read; ts starts at the equal sign. */
  function ParseSetting(encode: Encoder, key: Token, ts: Tokens, f: Fields): (r: SettingResult)
    ensures |r.rest| <= |ts| && (r.GoodSetting? ==> |r.rest| < |ts|)
  {
    if !key.Host? && !key.Port? && !key.Root? then BadSetting(ts)
    else if !Head(ts).EqualSign? then BadSetting(Tail(ts))
    else
      var v := Head(Tail(ts));
      var rest := Tail(Tail(ts));
      if key.Port? then
        if v.Int? then GoodSetting(f.(port := v.v % TWO32), rest) else BadSetting(rest)
      else if !v.Str? then BadSetting(rest)
      else if key.Host? then GoodSetting(if f.host == "" then f.(host := Clip(v.s)) else f, rest)
      else
        match encode(v.s)
        case Some(ep) => GoodSetting(f.(root := ep), rest)
        case None => BadSetting(rest)
  }

  datatype StanzaResult = Failed(code: int, rest: Tokens) | Parsed(conf: DomainConf, rest: Tokens)

  function FieldsConf(did: U32, f: Fields): DomainConf {
    DomainConf(did, Clip(f.host), f.port % 0x1_0000, f.root)
  }

  /** The stanza loop and the checks after it. */
  function StanzaLoop(encode: Encoder, did: U32, tok: Token, ts: Tokens, f: Fields): (r: StanzaResult)
    ensures |r.rest| <= |ts|
    decreases |ts|
  {
    if tok.Eof? then Failed(-10, ts)
    else if tok.RightCurly? then
      if f.host == "" then Failed(-10, ts) else Parsed(FieldsConf(did, f), ts)
    else
      match ParseSetting(encode, tok, ts, f)
      case BadSetting(rest) => Failed(-10, rest)
      case GoodSetting(f', rest) => StanzaLoop(encode, did, Head(rest), Tail(rest), f')
  }

  /** A configured id is truncated to 32 bits after the check that it is not 0. */
  function DomainId(tok: Token): Option<U32> {
    match tok
    case Default => Some(DEFAULT_DOMAIN_ID)
    case Int(v) => if v == 0 then None else Some(v % TWO32)
    case _ => None
  }

  function StanzaBody(encode: Encoder, did: U32, ts: Tokens): (r: StanzaResult)
    ensures |r.rest| <= |ts|
  {
    var good := SkipToGood(ts);
    StanzaLoop(encode, did, good.0, good.1, INITIAL_FIELDS)
  }

  /** process_domain_token */
  function ProcessDomain(encode: Encoder, ts: Tokens): (r: StanzaResult)
    ensures |r.rest| <= |ts| && (ts != [] ==> |r.rest| < |ts|)
  {
    if !Head(ts).Domain? then Failed(-1, Tail(ts)) else
      var idTok := Head(Tail(ts));
      var ts2 := Tail(Tail(ts));
      match DomainId(idTok)
      case None => Failed(if idTok.Int? then -2 else -3, ts2)
      case Some(did) =>
        if !Head(ts2).LeftCurly? then Failed(-10, Tail(ts2)) else StanzaBody(encode, did, Tail(ts2))
  }

  /** process_my_entity_token: the return code, the path read if any, and the tokens left. */
  function ProcessMyEntity(encode: Encoder, ts: Tokens): (r: (int, Option<EntityPath>, Tokens))
    ensures |r.2| <= |ts| && (ts != [] ==> |r.2| < |ts|)
    ensures r.0 == 0 <==> r.1.Some?
  {
    if !Head(ts).MyEp? then (-1, None, Tail(ts))
    else if !Head(Tail(ts)).EqualSign? then (-2, None, Tail(Tail(ts)))
    else
      var v := Head(Tail(Tail(ts)));
      var rest := Tail(Tail(Tail(ts)));
      if !v.Str? then (-3, None, rest) else
        match encode(v.s)
        case Some(ep) => (0, Some(ep), rest)
        case None => (-4, None, rest)
  }

  datatype Config = Config(domains: Table, myEntity: EntityPath)

  function WithDomain(c: Config, conf: DomainConf): Config {
    c.(domains := c.domains[conf.did := conf])
  }

  /** load_client_config: one round of its loop for every peeked token. */
  function Load(encode: Encoder, ts: Tokens, c: Config): Config
    decreases |ts|
  {
    match Head(ts)
    case Eof => c
    case Domain =>
      (match ProcessDomain(encode, ts)
       case Failed(_, rest) => Load(encode, rest, c)
       case Parsed(conf, rest) => Load(encode, rest, WithDomain(c, conf)))
    case MyEp =>
      var (_, ep, rest) := ProcessMyEntity(encode, ts);
      Load(encode, rest, if ep.Some? then c.(myEntity := ep.value) else c)
    case _ => Load(encode, Tail(ts), c)
  }
}
