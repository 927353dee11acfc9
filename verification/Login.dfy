/** Login of an iSCSI connection: stages, CHAP, and what the initiator is told (section 5.3 of RFC 3720). */
module Login {
  import opened Options
  import opened Bytes

  /** The states in the source's order; Rank is the source's constant. */
  datatype Stage =
    | Free | Security | SecurityAuth | SecurityDone | SecurityLogin | SecurityFull
    | Operational | LoginFull | Full | Kernel | Close | Exit
  {
    function Rank(): nat
    {
      match this
      case Free => 0 case Security => 1 case SecurityAuth => 2 case SecurityDone => 3
      case SecurityLogin => 4 case SecurityFull => 5 case Operational => 6 case LoginFull => 7
      case Full => 8 case Kernel => 9 case Close => 10 case Exit => 11
    }
  }

  const STAGE_SECURITY := 0
  const STAGE_OPERATIONAL := 1
  const STAGE_FULL := 3

  datatype AuthMethod = Unknown | NoAuth | Chap

  /** One entry of an AuthMethod list. */
  datatype Offer = OfferNone | OfferChap | OfferOther

  /** CHAP_R: missing, not decodable, or the digest it holds. */
  datatype Response = NoResponse | BadResponse | Digest(digest: seq<byte>)

  /** What chap_target_auth_create_response makes of the rest of the PDU. */
  datatype Mutual = NotWanted | Answered | EmptyChallenge | MutualError(code: int)

  const INITIATOR_ERROR := -1
  const AUTH_ERROR := -2
  const TARGET_ERROR := -3

  /** What login_start makes of the names, the target and its access lists. */
  datatype Found = NotFound | Found(tid: nat, discovery: bool)

  /** A login PDU, its keys already parsed, with the random numbers drawn and the outcomes of code outside this
      model. */
  datatype Pdu = Pdu(
    login: bool, immediate: bool, versionOk: bool, csg: nat, transit: bool, nsg: nat,
    found: Found, offers: seq<seq<Offer>>,
    chapA: Option<seq<nat>>, chapN: Option<string>, chapR: Response, mutual: Mutual,
    newId: nat, newChallenge: seq<byte>,
    textOk: bool, undecided: nat, joinOk: bool, finishOk: bool)

  const MD5 := 5
  const SHA1 := 7

  /** The accounts, which do not change, and the digest function. */
  datatype Config = Config(protected: set<nat>, secrets: map<(nat, string), string>,
                           digest: (nat, nat, string, seq<byte>) -> seq<byte>)

  /** The last CHAP response that matched. */
  datatype Proof = NoProof | Proof(name: string, response: seq<byte>)

  datatype Conn = Conn(stage: Stage, auth: AuthMethod, authState: nat, tid: nat, discovery: bool,
                       alg: nat, id: nat, challenge: seq<byte>, proof: Proof)

  datatype Reply = Rejected | Refused(authFailed: bool) | Accepted(transit: bool, nsg: nat)

  const START := 0
  const CHALLENGE := 1
  const RESPONSE := 2

  // ---- what the source's functions compute ----

  /** One AuthMethod key: the first usable offer. */
  function ScanKey(isProtected: bool, auth: AuthMethod, offers: seq<Offer>): AuthMethod
  {
    if offers == [] then auth
    else if offers[0] == OfferNone && !isProtected then NoAuth
    else if offers[0] == OfferChap && isProtected then Chap
    else ScanKey(isProtected, auth, offers[1..])
  }

  function ScanKeys(isProtected: bool, auth: AuthMethod, keys: seq<seq<Offer>>): AuthMethod
    decreases |keys|
  {
    if keys == [] then auth else ScanKeys(isProtected, ScanKey(isProtected, auth, keys[0]), keys[1..])
  }

  /** text_scan_security, and the move to SecurityAuth */
  function Scan(cfg: Config, c: Conn, p: Pdu): (Conn, Reply)
  {
    var auth := ScanKeys(c.tid in cfg.protected, c.auth, p.offers);
    if auth == Unknown then (c.(auth := auth, stage := Exit), Refused(true))
    else if auth != NoAuth then (c.(auth := auth, stage := SecurityAuth, authState := START), Accepted(false, 0))
    else (c.(auth := auth), Accepted(false, 0))
  }

  /** The first algorithm of the list that is supported. */
  function PickAlg(algs: seq<nat>): Option<nat>
  {
    if algs == [] then None
    else if algs[0] == MD5 || algs[0] == SHA1 then Some(algs[0])
    else PickAlg(algs[1..])
  }

  /** chap_initiator_auth_create_challenge */
  function CreateChallenge(c: Conn, p: Pdu): (Conn, int)
  {
    if p.chapA.None? then (c, INITIATOR_ERROR)
    else
      match PickAlg(p.chapA.value)
      case None => (c, INITIATOR_ERROR)
      case Some(alg) => (c.(alg := alg, authState := CHALLENGE, id := p.newId, challenge := p.newChallenge), 0)
  }

  /** chap_initiator_auth_check_response */
  function CheckResponse(cfg: Config, c: Conn, p: Pdu): (Conn, int)
  {
    if c.tid !in cfg.protected then (c, TARGET_ERROR)
    else if p.chapN.None? then (c, INITIATOR_ERROR)
    else if (c.tid, p.chapN.value) !in cfg.secrets then (c, AUTH_ERROR)
    else if p.chapR.NoResponse? then (c, INITIATOR_ERROR)
    else if c.alg != MD5 && c.alg != SHA1 then (c, TARGET_ERROR)
    else if p.chapR.BadResponse? then (c, INITIATOR_ERROR)
    else if p.chapR.digest != cfg.digest(c.alg, c.id, cfg.secrets[(c.tid, p.chapN.value)], c.challenge)
    then (c, AUTH_ERROR)
    else (c.(stage := SecurityAuth, proof := Proof(p.chapN.value, p.chapR.digest)), 0)
  }

  /** chap_target_auth_create_response */
  function CreateResponse(c: Conn, p: Pdu): (Conn, int)
  {
    match p.mutual
    case NotWanted => (c.(stage := SecurityDone), 0)
    case Answered => (c.(stage := SecurityDone), 0)
    case EmptyChallenge => (c, 0)
    case MutualError(code) => (c, if code < 0 then code else INITIATOR_ERROR)
  }

  /** cmnd_exec_auth_chap */
  function AuthChap(cfg: Config, c: Conn, p: Pdu): (Conn, int)
  {
    if c.authState == START then CreateChallenge(c, p)
    else if c.authState == CHALLENGE then
      var (d, res) := CheckResponse(cfg, c, p);
      if res < 0 then (d, res) else CreateResponse(d, p)
    else if c.authState == RESPONSE then CreateResponse(c, p)
    else (c, TARGET_ERROR)
  }

  /** cmnd_exec_auth, and the errors it leads to */
  function Authenticate(cfg: Config, c: Conn, p: Pdu): (Conn, Reply)
  {
    var (d, res) :=
      match c.auth
      case Chap => AuthChap(cfg, c, p)
      case NoAuth => (c, 0)
      case Unknown => (c, TARGET_ERROR);
    if res == 0 then (d, Accepted(false, 0))
    else (d.(stage := Exit), Refused(res == AUTH_ERROR))
  }

  function InitError(c: Conn): (Conn, Reply)
  {
    (c.(stage := Exit), Refused(false))
  }

  /** The security negotiation stage. */
  function SecurityStage(cfg: Config, c: Conn, p: Pdu): (Conn, Reply)
  {
    match c.stage
    case Free =>
      (match p.found
       case NotFound => InitError(c)
       case Found(tid, discovery) =>
         Scan(cfg, c.(stage := Security, tid := tid, discovery := discovery, auth := Unknown), p))
    case Security => Scan(cfg, c, p)
    case SecurityAuth => Authenticate(cfg, c, p)
    case _ => InitError(c)
  }

  /** The operational negotiation stage. */
  function OperationalStage(cfg: Config, c: Conn, p: Pdu): (Conn, Reply)
  {
    match c.stage
    case Free =>
      (match p.found
       case NotFound => InitError(c)
       case Found(tid, discovery) =>
         var d := c.(stage := Operational, tid := tid, discovery := discovery, auth := Unknown);
         if tid in cfg.protected then (d.(stage := Exit), Refused(true))
         else if !p.textOk then InitError(d)
         else (d, Accepted(false, 0)))
    case Operational => if !p.textOk then InitError(c) else (c, Accepted(false, 0))
    case _ => InitError(c)
  }

  /** The rest of cmnd_exec_login, when the PDU asks to go on to stage nsg. */
  function Transition(c: Conn, p: Pdu): (Conn, Reply)
  {
    var stay := p.csg == STAGE_OPERATIONAL && p.undecided > 0;
    if p.nsg == STAGE_OPERATIONAL then
      if c.stage != Security && c.stage != SecurityDone then InitError(c)
      else if !p.joinOk then InitError(c)
      else (c.(stage := SecurityLogin), Accepted(true, STAGE_OPERATIONAL))
    else if p.nsg == STAGE_FULL then
      if c.stage == Security || c.stage == SecurityDone then
        if p.undecided > 0 then (c.(stage := Operational), Accepted(!stay, STAGE_OPERATIONAL))
        else if !p.joinOk || !p.finishOk then InitError(c)
        else (c.(stage := SecurityFull), Accepted(true, STAGE_FULL))
      else if c.stage == Operational then
        if stay then (c, Accepted(false, STAGE_OPERATIONAL))
        else if !p.finishOk then InitError(c)
        else (c.(stage := LoginFull), Accepted(true, STAGE_FULL))
      else InitError(c)
    else InitError(c)
  }

  function Negotiate(cfg: Config, c: Conn, p: Pdu): (Conn, Reply)
  {
    if p.csg == STAGE_SECURITY then SecurityStage(cfg, c, p)
    else if p.csg == STAGE_OPERATIONAL then OperationalStage(cfg, c, p)
    else InitError(c)
  }

  function Conclude(c: Conn, reply: Reply, p: Pdu): (Conn, Reply)
  {
    if reply.Refused? || c.stage == SecurityAuth || !p.transit then (c, reply) else Transition(c, p)
  }

  /** cmnd_exec_login */
  function ExecLogin(cfg: Config, c: Conn, p: Pdu): (Conn, Reply)
  {
    if !p.login || !p.immediate then (c, Rejected)
    else if !p.versionOk then InitError(c)
    else
      var (d, reply) := Negotiate(cfg, c, p);
      Conclude(d, reply, p)
  }

  /** cmnd_finish, when the reply has been sent */
  function Finish(c: Conn): Conn
  {
    match c.stage
    case Exit => c.(stage := Close)
    case SecurityLogin => c.(stage := Operational)
    case SecurityFull => c.(stage := if c.discovery then Full else Kernel)
    case LoginFull => c.(stage := if c.discovery then Full else Kernel)
    case _ => c
  }

  function Serve(cfg: Config, c: Conn, p: Pdu): Conn
  {
    Finish(ExecLogin(cfg, c, p).0)
  }

  // ---- the invariant ----

  /** The recorded response is the digest of this connection's challenge under a secret of its target. */
  predicate Proven(cfg: Config, c: Conn)
  {
    && c.proof.Proof? && (c.tid, c.proof.name) in cfg.secrets
    && c.proof.response == cfg.digest(c.alg, c.id, cfg.secrets[(c.tid, c.proof.name)], c.challenge)
  }

  predicate FullFeature(c: Conn)
  {
    c.stage == Full || c.stage == Kernel
  }

  /** No authentication only for targets without accounts, CHAP only for targets with them. */
  predicate AuthOk(cfg: Config, c: Conn)
  {
    c.auth == Unknown || (c.auth == NoAuth <==> c.tid !in cfg.protected)
  }

  /** Holds during a PDU as well. */
  predicate Safe(cfg: Config, c: Conn)
  {
    && c.authState <= CHALLENGE && (Free.Rank() < c.stage.Rank() < Close.Rank() ==> AuthOk(cfg, c))
    && (c.stage == Security ==> c.auth == NoAuth)
    && (c.stage == SecurityAuth ==> c.auth == Chap)
    && (SecurityAuth.Rank() < c.stage.Rank() < Close.Rank() && c.tid in cfg.protected ==> Proven(cfg, c))
  }

  predicate Transient(st: Stage)
  {
    st == SecurityLogin || st == SecurityFull || st == LoginFull || st == Exit
  }

  predicate Inv(cfg: Config, c: Conn)
  {
    Safe(cfg, c) && !Transient(c.stage)
  }

  lemma {:induction false} ScanKeyUsable(isProtected: bool, auth: AuthMethod, offers: seq<Offer>)
    requires auth == Unknown || (auth == NoAuth <==> !isProtected)
    ensures var r := ScanKey(isProtected, auth, offers); r == Unknown || (r == NoAuth <==> !isProtected)
  {
    if offers != [] {
      ScanKeyUsable(isProtected, auth, offers[1..]);
    }
  }

  /** A target with accounts never ends up with no authentication, one without never with CHAP. */
  lemma {:induction false} ScanKeysUsable(isProtected: bool, auth: AuthMethod, keys: seq<seq<Offer>>)
    requires auth == Unknown || (auth == NoAuth <==> !isProtected)
    decreases |keys|
    ensures var r := ScanKeys(isProtected, auth, keys); r == Unknown || (r == NoAuth <==> !isProtected)
  {
    if keys != [] {
      ScanKeyUsable(isProtected, auth, keys[0]);
      ScanKeysUsable(isProtected, ScanKey(isProtected, auth, keys[0]), keys[1..]);
    }
  }

  lemma ScanKeeps(cfg: Config, c: Conn, p: Pdu)
    requires AuthOk(cfg, c) && c.authState <= CHALLENGE && c.stage == Security
    ensures var (d, r) := Scan(cfg, c, p);
      && Safe(cfg, d) && (d.stage == Security || d.stage == SecurityAuth || d.stage == Exit)
      && (r.Refused? <==> d.stage == Exit) && (r.Refused? || r == Accepted(false, 0))
  {
    ScanKeysUsable(c.tid in cfg.protected, c.auth, p.offers);
  }

  lemma AuthenticateKeeps(cfg: Config, c: Conn, p: Pdu)
    requires Safe(cfg, c) && c.stage == SecurityAuth
    ensures var (d, r) := Authenticate(cfg, c, p);
      && Safe(cfg, d) && (d.stage == SecurityAuth || d.stage == SecurityDone || d.stage == Exit)
      && (r.Refused? <==> d.stage == Exit) && (r.Refused? || r == Accepted(false, 0))
  {
  }

  /** What either stage leaves: a stage no earlier, settled unless refused. */
  predicate Negotiated(cfg: Config, c: Conn, d: Conn, r: Reply)
  {
    && Safe(cfg, d) && d.stage.Rank() >= c.stage.Rank() && d.stage != Free && d.stage != Close
    && (r.Refused? <==> d.stage == Exit)
    && (r.Refused? || (r == Accepted(false, 0) && d.stage.Rank() < LoginFull.Rank()))
    && (Transient(d.stage) ==> d.stage == Exit)
  }

  lemma SecurityStageKeeps(cfg: Config, c: Conn, p: Pdu)
    requires Inv(cfg, c) && c.stage != Close
    ensures Negotiated(cfg, c, SecurityStage(cfg, c, p).0, SecurityStage(cfg, c, p).1)
  {
    match c.stage
    case Free =>
      if p.found.Found? {
        ScanKeeps(cfg, c.(stage := Security, tid := p.found.tid, discovery := p.found.discovery, auth := Unknown), p);
      }
    case Security => ScanKeeps(cfg, c, p);
    case SecurityAuth => AuthenticateKeeps(cfg, c, p);
    case _ =>
  }

  lemma OperationalStageKeeps(cfg: Config, c: Conn, p: Pdu)
    requires Inv(cfg, c) && c.stage != Close
    ensures Negotiated(cfg, c, OperationalStage(cfg, c, p).0, OperationalStage(cfg, c, p).1)
  {
  }

  lemma TransitionKeeps(cfg: Config, c: Conn, p: Pdu)
    requires Inv(cfg, c) && Free.Rank() < c.stage.Rank() < LoginFull.Rank()
    ensures var (d, r) := Transition(c, p);
      && Safe(cfg, d) && d.stage.Rank() >= c.stage.Rank() && d.stage != Close && !FullFeature(d)
      && (r.Refused? <==> d.stage == Exit) && !r.Rejected?
      && (r == Accepted(true, STAGE_FULL) <==> d.stage == SecurityFull || d.stage == LoginFull)
  {
  }

  lemma NegotiateKeeps(cfg: Config, c: Conn, p: Pdu)
    requires Inv(cfg, c) && c.stage != Close
    ensures Negotiated(cfg, c, Negotiate(cfg, c, p).0, Negotiate(cfg, c, p).1)
  {
    SecurityStageKeeps(cfg, c, p);
    OperationalStageKeeps(cfg, c, p);
  }

  /** After one login PDU: the invariant, and no earlier stage. A refused login closes the connection, and the
      initiator is told that full feature phase is reached exactly when it is. */
  predicate Served(cfg: Config, c: Conn, d: Conn, r: Reply)
  {
    && Inv(cfg, d) && (d.stage == Close || d.stage.Rank() >= c.stage.Rank())
    && (r.Refused? <==> d.stage == Close)
    && (!FullFeature(c) ==> (r == Accepted(true, STAGE_FULL) <==> FullFeature(d)))
  }

  lemma ConcludeKeeps(cfg: Config, c: Conn, d: Conn, reply: Reply, p: Pdu)
    requires Inv(cfg, c) && c.stage != Close && Negotiated(cfg, c, d, reply)
    ensures Served(cfg, c, Finish(Conclude(d, reply, p).0), Conclude(d, reply, p).1)
  {
    if !reply.Refused? {
      TransitionKeeps(cfg, d, p);
    }
  }

  lemma ServeKeepsInv(cfg: Config, c: Conn, p: Pdu)
    requires Inv(cfg, c) && c.stage != Close
    ensures Served(cfg, c, Serve(cfg, c, p), ExecLogin(cfg, c, p).1)
  {
    if p.login && p.immediate && p.versionOk {
      NegotiateKeeps(cfg, c, p);
      ConcludeKeeps(cfg, c, Negotiate(cfg, c, p).0, Negotiate(cfg, c, p).1, p);
    }
  }

  // ---- runs ----

  const NEW_CONN := Conn(Free, Unknown, START, 0, false, 0, 0, [], NoProof)

  /** The connection after each PDU; a closed one gets no more. */
  function Trace(serve: (Conn, Pdu) -> Conn, c: Conn, ps: seq<Pdu>): seq<Conn>
    decreases |ps|
  {
    if ps == [] || c.stage == Close then [c] else [c] + Trace(serve, serve(c, ps[0]), ps[1..])
  }

  function Server(cfg: Config): (Conn, Pdu) -> Conn
  {
    (c, p) => Serve(cfg, c, p)
  }

  function Login(cfg: Config, ps: seq<Pdu>): seq<Conn>
  {
    Trace(Server(cfg), NEW_CONN, ps)
  }

  ghost predicate Keeps(cfg: Config, serve: (Conn, Pdu) -> Conn)
  {
    forall c, p | Inv(cfg, c) && c.stage != Close ::
      Inv(cfg, serve(c, p)) && (serve(c, p).stage == Close || serve(c, p).stage.Rank() >= c.stage.Rank())
  }

  /** The stages never fall before the last, which may be Close. */
  predicate Climbs(t: seq<Conn>)
  {
    && (forall i | 0 <= i < |t| - 1 :: t[i].stage != Close)
    && (forall i, j | 0 <= i < j < |t| :: t[j].stage == Close || t[i].stage.Rank() <= t[j].stage.Rank())
  }

  predicate AllInv(cfg: Config, t: seq<Conn>)
  {
    forall i | 0 <= i < |t| :: Inv(cfg, t[i])
  }

  lemma ClimbsOn(c: Conn, t: seq<Conn>)
    requires t != [] && Climbs(t) && c.stage != Close && (t[0].stage == Close || c.stage.Rank() <= t[0].stage.Rank())
    ensures Climbs([c] + t)
  {
    forall j | 0 <= j < |t|
      ensures t[j].stage == Close || c.stage.Rank() <= t[j].stage.Rank()
    {
      if j > 0 {
        assert t[0].stage != Close;
      }
    }
  }

  lemma {:induction false} TraceSafe(cfg: Config, serve: (Conn, Pdu) -> Conn, c: Conn, ps: seq<Pdu>)
    requires Keeps(cfg, serve) && Inv(cfg, c)
    ensures Climbs(Trace(serve, c, ps)) && AllInv(cfg, Trace(serve, c, ps))
    ensures Trace(serve, c, ps) != [] && Trace(serve, c, ps)[0] == c
    decreases |ps|
  {
    if ps != [] && c.stage != Close {
      var d := serve(c, ps[0]);
      TraceSafe(cfg, serve, d, ps[1..]);
      ClimbsOn(c, Trace(serve, d, ps[1..]));
    }
  }

  /** Over every sequence of login PDUs the stage never falls before the connection closes, and a connection to a target
      with accounts is in full feature phase only after a response matched the digest of the connection's own challenge
      under one of the target's secrets. */
  lemma LoginSafe(cfg: Config, ps: seq<Pdu>)
    ensures Climbs(Login(cfg, ps))
    ensures forall i | 0 <= i < |Login(cfg, ps)| ::
      var c := Login(cfg, ps)[i]; FullFeature(c) && c.tid in cfg.protected ==> Proven(cfg, c)
  {
    var serve := Server(cfg);
    forall c, p | Inv(cfg, c) && c.stage != Close
      ensures Inv(cfg, serve(c, p)) && (serve(c, p).stage == Close || serve(c, p).stage.Rank() >= c.stage.Rank())
    {
      ServeKeepsInv(cfg, c, p);
    }
    TraceSafe(cfg, serve, NEW_CONN, ps);
  }

  // ---- the right secret gets in ----

  /** The three PDUs of an initiator that knows a secret of its target and takes every default. */
  function HonestPdus(cfg: Config, tid: nat, name: string, alg: nat, id: nat, challenge: seq<byte>): seq<Pdu>
    requires (tid, name) in cfg.secrets
  {
    var offer := Pdu(true, true, true, STAGE_SECURITY, false, 0, Found(tid, false), [[OfferNone, OfferChap]],
                     None, None, NoResponse, NotWanted, id, challenge, true, 0, true, true);
    var answer := Digest(cfg.digest(alg, id, cfg.secrets[(tid, name)], challenge));
    [offer,
     offer.(chapA := Some([alg])),
     offer.(chapN := Some(name), chapR := answer, transit := true, nsg := STAGE_FULL)]
  }

  lemma HonestLoginSucceeds(cfg: Config, tid: nat, name: string, alg: nat, id: nat, challenge: seq<byte>)
    requires tid in cfg.protected && (tid, name) in cfg.secrets && (alg == MD5 || alg == SHA1)
    ensures var ps := HonestPdus(cfg, tid, name, alg, id, challenge);
      Serve(cfg, Serve(cfg, Serve(cfg, NEW_CONN, ps[0]), ps[1]), ps[2]).stage == Kernel
  {
    var ps := HonestPdus(cfg, tid, name, alg, id, challenge);
    assert ps[0].offers[0][1..] == [OfferChap];
    assert ScanKey(true, Unknown, ps[0].offers[0]) == Chap;
    assert ScanKeys(true, Unknown, ps[0].offers) == Chap;
    var c1 := Conn(SecurityAuth, Chap, START, tid, false, 0, 0, [], NoProof);
    assert Serve(cfg, NEW_CONN, ps[0]) == c1;
    var c2 := c1.(authState := CHALLENGE, alg := alg, id := id, challenge := challenge);
    assert Serve(cfg, c1, ps[1]) == c2;
  }
}
