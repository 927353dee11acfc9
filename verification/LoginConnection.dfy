/** The connection object that runs the login, field by field. */
module LoginConnection {
  import opened Options
  import opened Bytes
  import opened Login

  class Connection {
    var stage: Stage
    var auth: AuthMethod
    var authState: nat
    var tid: nat
    var discovery: bool
    var alg: nat
    var id: nat
    var challenge: seq<byte>
    ghost var proof: Proof

    ghost function View(): Conn
      reads this
    {
      Conn(stage, auth, authState, tid, discovery, alg, id, challenge, proof)
    }

    constructor ()
      ensures View() == NEW_CONN
    {
      stage, auth, authState, tid, discovery, alg, id, challenge, proof :=
        Free, Unknown, START, 0, false, 0, 0, [], NoProof;
    }

    /** The loop over one AuthMethod list. */
    method ScanOffers(isProtected: bool, offers: seq<Offer>)
      modifies `auth
      ensures auth == ScanKey(isProtected, old(auth), offers)
    {
      var rest := offers;
      while rest != []
        invariant auth == old(auth)
        invariant ScanKey(isProtected, old(auth), offers) == ScanKey(isProtected, old(auth), rest)
        decreases |rest|
      {
        if rest[0] == OfferNone && !isProtected {
          auth := NoAuth;
          return;
        } else if rest[0] == OfferChap && isProtected {
          auth := Chap;
          return;
        }
        rest := rest[1..];
      }
    }

    /** text_scan_security */
    method ScanSecurity(cfg: Config, p: Pdu) returns (reply: Reply)
      modifies this
      ensures (View(), reply) == Scan(cfg, old(View()), p)
    {
      var keys := p.offers;
      var isProtected := tid in cfg.protected;
      while keys != []
        invariant ScanKeys(isProtected, old(auth), p.offers) == ScanKeys(isProtected, auth, keys)
        invariant View() == old(View()).(auth := auth)
        decreases |keys|
      {
        ScanOffers(isProtected, keys[0]);
        keys := keys[1..];
      }
      reply := Accepted(false, 0);
      if auth == Unknown {
        reply := Refused(true);
        stage := Exit;
      } else if auth != NoAuth {
        stage, authState := SecurityAuth, START;
      }
    }

    /** chap_initiator_auth_create_challenge */
    method IssueChallenge(p: Pdu) returns (res: int)
      modifies this
      ensures (View(), res) == CreateChallenge(old(View()), p)
    {
      if p.chapA.None? {
        return INITIATOR_ERROR;
      }
      var rest := p.chapA.value;
      while rest != [] && rest[0] != MD5 && rest[0] != SHA1
        invariant PickAlg(p.chapA.value) == PickAlg(rest)
        decreases |rest|
      {
        rest := rest[1..];
      }
      if rest == [] {
        return INITIATOR_ERROR;
      }
      alg, authState, id, challenge := rest[0], CHALLENGE, p.newId, p.newChallenge;
      return 0;
    }

    /** chap_initiator_auth_check_response; its last assignment stores the authentication state number 2 in the
        connection's state, where 2 is SecurityAuth */
    method VerifyResponse(cfg: Config, p: Pdu) returns (res: int)
      modifies this
      ensures (View(), res) == CheckResponse(cfg, old(View()), p)
    {
      if tid !in cfg.protected {
        return TARGET_ERROR;
      }
      if p.chapN.None? {
        return INITIATOR_ERROR;
      }
      if (tid, p.chapN.value) !in cfg.secrets {
        return AUTH_ERROR;
      }
      var pass := cfg.secrets[(tid, p.chapN.value)];
      if p.chapR.NoResponse? {
        return INITIATOR_ERROR;
      }
      if alg != MD5 && alg != SHA1 {
        return TARGET_ERROR;
      }
      if p.chapR.BadResponse? {
        return INITIATOR_ERROR;
      }
      var ours := cfg.digest(alg, id, pass, challenge);
      if ours != p.chapR.digest {
        return AUTH_ERROR;
      }
      stage := SecurityAuth;
      proof := Proof(p.chapN.value, p.chapR.digest);
      return 0;
    }

    /** chap_target_auth_create_response */
    method AnswerInitiator(p: Pdu) returns (res: int)
      modifies this
      ensures (View(), res) == CreateResponse(old(View()), p)
    {
      match p.mutual
      case NotWanted =>
        stage := SecurityDone;
        return 0;
      case Answered =>
        stage := SecurityDone;
        return 0;
      case EmptyChallenge =>
        return 0;
      case MutualError(code) =>
        return if code < 0 then code else INITIATOR_ERROR;
    }

    /** cmnd_exec_auth_chap */
    method ExecAuthChap(cfg: Config, p: Pdu) returns (res: int)
      modifies this
      ensures (View(), res) == AuthChap(cfg, old(View()), p)
    {
      if authState == START {
        res := IssueChallenge(p);
      } else if authState == CHALLENGE {
        res := VerifyResponse(cfg, p);
        if res >= 0 {
          res := AnswerInitiator(p);
        }
      } else if authState == RESPONSE {
        res := AnswerInitiator(p);
      } else {
        res := TARGET_ERROR;
      }
    }

    /** The SecurityAuth case of cmnd_exec_login, with cmnd_exec_auth */
    method ExecAuth(cfg: Config, p: Pdu) returns (reply: Reply)
      modifies this
      ensures (View(), reply) == Authenticate(cfg, old(View()), p)
    {
      var res;
      match auth {
        case Chap => res := ExecAuthChap(cfg, p);
        case NoAuth => res := 0;
        case Unknown => res := TARGET_ERROR;
      }
      if res == 0 {
        return Accepted(false, 0);
      }
      stage := Exit;
      return Refused(res == AUTH_ERROR);
    }

    method Fail() returns (reply: Reply)
      modifies this
      ensures (View(), reply) == InitError(old(View()))
    {
      stage := Exit;
      return Refused(false);
    }

    method ExecSecurityStage(cfg: Config, p: Pdu) returns (reply: Reply)
      modifies this
      ensures (View(), reply) == SecurityStage(cfg, old(View()), p)
    {
      match stage {
        case Free =>
          if p.found.NotFound? {
            reply := Fail();
          } else {
            stage, tid, discovery, auth := Security, p.found.tid, p.found.discovery, Unknown;
            reply := ScanSecurity(cfg, p);
          }
        case Security => reply := ScanSecurity(cfg, p);
        case SecurityAuth => reply := ExecAuth(cfg, p);
        case _ => reply := Fail();
      }
    }

    method ExecOperationalStage(cfg: Config, p: Pdu) returns (reply: Reply)
      modifies this
      ensures (View(), reply) == OperationalStage(cfg, old(View()), p)
    {
      match stage {
        case Free =>
          if p.found.NotFound? {
            reply := Fail();
          } else {
            stage, tid, discovery, auth := Operational, p.found.tid, p.found.discovery, Unknown;
            if tid in cfg.protected {
              stage := Exit;
              reply := Refused(true);
            } else if !p.textOk {
              reply := Fail();
            } else {
              reply := Accepted(false, 0);
            }
          }
        case Operational =>
          if !p.textOk {
            reply := Fail();
          } else {
            reply := Accepted(false, 0);
          }
        case _ => reply := Fail();
      }
    }

    /** The switch on the next stage at the end of cmnd_exec_login */
    method ExecTransition(p: Pdu) returns (reply: Reply)
      modifies this
      ensures (View(), reply) == Transition(old(View()), p)
    {
      var stay := p.csg == STAGE_OPERATIONAL && p.undecided > 0;
      var secured := stage == Security || stage == SecurityDone;
      if p.nsg == STAGE_OPERATIONAL && secured && p.joinOk {
        stage := SecurityLogin;
        return Accepted(true, STAGE_OPERATIONAL);
      } else if p.nsg == STAGE_FULL && secured && p.undecided > 0 {
        stage := Operational;
        return Accepted(!stay, STAGE_OPERATIONAL);
      } else if p.nsg == STAGE_FULL && secured && p.joinOk && p.finishOk {
        stage := SecurityFull;
        return Accepted(true, STAGE_FULL);
      } else if p.nsg == STAGE_FULL && stage == Operational && stay {
        return Accepted(false, STAGE_OPERATIONAL);
      } else if p.nsg == STAGE_FULL && stage == Operational && p.finishOk {
        stage := LoginFull;
        return Accepted(true, STAGE_FULL);
      }
      reply := Fail();
    }

    /** cmnd_exec_login, then cmnd_finish */
    method Receive(cfg: Config, p: Pdu) returns (reply: Reply)
      modifies this
      ensures View() == Serve(cfg, old(View()), p) && reply == ExecLogin(cfg, old(View()), p).1
    {
      reply := Exec(cfg, p);
      match stage {
        case Exit => stage := Close;
        case SecurityLogin => stage := Operational;
        case SecurityFull => stage := if discovery then Full else Kernel;
        case LoginFull => stage := if discovery then Full else Kernel;
        case _ =>
      }
    }

    method Exec(cfg: Config, p: Pdu) returns (reply: Reply)
      modifies this
      ensures (View(), reply) == ExecLogin(cfg, old(View()), p)
    {
      if !p.login || !p.immediate {
        return Rejected;
      }
      if !p.versionOk {
        reply := Fail();
        return;
      }
      if p.csg == STAGE_SECURITY {
        reply := ExecSecurityStage(cfg, p);
      } else if p.csg == STAGE_OPERATIONAL {
        reply := ExecOperationalStage(cfg, p);
      } else {
        reply := Fail();
      }
      if !reply.Refused? && stage != SecurityAuth && p.transit {
        reply := ExecTransition(p);
      }
    }

    /** One PDU, for a server and its replies given as functions. */
    method ReceiveVia(cfg: Config, p: Pdu, ghost serve: (Conn, Pdu) -> Conn, ghost reply: (Conn, Pdu) -> Reply)
      returns (r: Reply)
      requires serve == Server(cfg) && reply == Replier(cfg)
      modifies this
      ensures View() == serve(old(View()), p) && r == reply(old(View()), p)
    {
      r := Receive(cfg, p);
    }

    method ReceiveAll(cfg: Config, ps: seq<Pdu>, ghost serve: (Conn, Pdu) -> Conn, ghost reply: (Conn, Pdu) -> Reply)
      returns (replies: seq<Reply>, ghost trace: seq<Conn>)
      requires serve == Server(cfg) && reply == Replier(cfg)
      modifies this
      ensures trace == Trace(serve, old(View()), ps) && |trace| == |replies| + 1 && trace[|replies|] == View()
      ensures RepliesRight(reply, trace, ps, replies)
    {
      ghost var all := Trace(serve, View(), ps);
      replies, trace := [], [View()];
      var i := 0;
      assert ps[0..] == ps;
      while i < |ps| && stage != Close
        invariant 0 <= i <= |ps| && |replies| == i && |trace| == i + 1 && trace[i] == View()
        invariant trace[..i] + Trace(serve, View(), ps[i..]) == all
        invariant RepliesRight(reply, trace, ps, replies)
      {
        ghost var c := View();
        var r := ReceiveVia(cfg, ps[i], serve, reply);
        TraceStep(serve, c, ps, i, View());
        Grow(trace, c, View(), Trace(serve, View(), ps[i + 1..]), i);
        RepliesGrow(reply, trace, ps, replies, r, View());
        replies, trace := replies + [r], trace + [View()];
        i := i + 1;
      }
      assert Trace(serve, View(), ps[i..]) == [View()];
      assert trace == trace[..i] + [View()];
    }

    /** The connection object through a whole login: it goes through the states of the specified one, never back to an
        earlier stage, gives its replies, and is in full feature phase with a target that has accounts only after a
        response matched. */
    method Session(cfg: Config, ps: seq<Pdu>) returns (replies: seq<Reply>, ghost trace: seq<Conn>)
      requires View() == NEW_CONN
      modifies this
      ensures trace == Login.Login(cfg, ps) && Climbs(trace) && |trace| == |replies| + 1 && trace[|replies|] == View()
      ensures RepliesRight(Replier(cfg), trace, ps, replies)
      ensures FullFeature(View()) && tid in cfg.protected ==> Proven(cfg, View())
    {
      replies, trace := ReceiveAll(cfg, ps, Server(cfg), Replier(cfg));
      LoginSafe(cfg, ps);
    }
  }

  /** The reply to a PDU. */
  function Replier(cfg: Config): (Conn, Pdu) -> Reply
  {
    (c, p) => ExecLogin(cfg, c, p).1
  }

  /** Every reply is the one that the state before it calls for. */
  ghost predicate RepliesRight(reply: (Conn, Pdu) -> Reply, trace: seq<Conn>, ps: seq<Pdu>, replies: seq<Reply>)
  {
    |replies| < |trace| && |replies| <= |ps| && forall i | 0 <= i < |replies| :: replies[i] == reply(trace[i], ps[i])
  }

  lemma RepliesGrow(reply: (Conn, Pdu) -> Reply, trace: seq<Conn>, ps: seq<Pdu>, replies: seq<Reply>, r: Reply,
                    d: Conn)
    requires RepliesRight(reply, trace, ps, replies) && |trace| == |replies| + 1 && |replies| < |ps|
    requires r == reply(trace[|replies|], ps[|replies|])
    ensures RepliesRight(reply, trace + [d], ps, replies + [r])
  {
  }

  lemma TraceStep(serve: (Conn, Pdu) -> Conn, c: Conn, ps: seq<Pdu>, i: nat, d: Conn)
    requires i < |ps| && c.stage != Close && d == serve(c, ps[i])
    ensures Trace(serve, c, ps[i..]) == [c] + Trace(serve, d, ps[i + 1..])
  {
    assert ps[i..][1..] == ps[i + 1..];
  }

  lemma Grow<T>(trace: seq<T>, c: T, d: T, rest: seq<T>, i: nat)
    requires |trace| == i + 1 && trace[i] == c
    ensures trace[..i] + ([c] + rest) == (trace + [d])[..i + 1] + rest
  {
  }
}
