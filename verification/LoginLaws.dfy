/** Logins that succeed: what the target decides on each PDU, and whole runs into full feature phase. */
module LoginLaws {
  import opened Options
  import opened Bytes
  import opened Login

  // ---- what is decided on a PDU ----

  predicate Offers(keys: seq<seq<Offer>>, o: Offer)
  {
    exists i, j | 0 <= i < |keys| && 0 <= j < |keys[i]| :: keys[i][j] == o
  }

  lemma {:induction false} ScanKeyDecides(isProtected: bool, auth: AuthMethod, offers: seq<Offer>)
    ensures ScanKey(isProtected, auth, offers) ==
            if (if isProtected then OfferChap else OfferNone) !in offers then auth
            else if isProtected then Chap else NoAuth
  {
    if offers != [] {
      ScanKeyDecides(isProtected, auth, offers[1..]);
      assert offers == [offers[0]] + offers[1..];
    }
  }

  lemma OffersSplit(keys: seq<seq<Offer>>, o: Offer)
    requires keys != []
    ensures Offers(keys, o) <==> o in keys[0] || Offers(keys[1..], o)
  {
    if o in keys[0] {
      var j :| 0 <= j < |keys[0]| && keys[0][j] == o;
    }
    if Offers(keys[1..], o) {
      var i, j :| 0 <= i < |keys[1..]| && 0 <= j < |keys[1..][i]| && keys[1..][i][j] == o;
      assert keys[i + 1][j] == o;
    }
    if Offers(keys, o) && o !in keys[0] {
      var i, j :| 0 <= i < |keys| && 0 <= j < |keys[i]| && keys[i][j] == o;
      assert keys[1..][i - 1][j] == o;
    }
  }

  lemma {:induction false} ScanKeysDecides(isProtected: bool, auth: AuthMethod, keys: seq<seq<Offer>>)
    ensures ScanKeys(isProtected, auth, keys) ==
            if !Offers(keys, if isProtected then OfferChap else OfferNone) then auth
            else if isProtected then Chap else NoAuth
    decreases |keys|
  {
    if keys != [] {
      ScanKeyDecides(isProtected, auth, keys[0]);
      ScanKeysDecides(isProtected, ScanKey(isProtected, auth, keys[0]), keys[1..]);
      OffersSplit(keys, if isProtected then OfferChap else OfferNone);
    }
  }

  predicate Secured(st: Stage)
  {
    st == Security || st == SecurityDone
  }

  /** The initiator's own values leave parameters open while it negotiates them. */
  predicate StillNegotiating(p: Pdu)
  {
    p.csg == STAGE_OPERATIONAL && p.undecided > 0
  }

  /** A request to go on to the operational stage is granted if and only if security is settled and the session can be
      joined, and a request for full feature phase also when it must still negotiate. */
  predicate GrantsOperational(c: Conn, p: Pdu)
  {
    && Secured(c.stage)
    && if p.nsg == STAGE_OPERATIONAL then p.joinOk
       else p.nsg == STAGE_FULL && p.undecided > 0 && !StillNegotiating(p)
  }

  /** Full feature phase is granted from settled security, with nothing left to negotiate, or from the operational
      stage, and only if the session is found and finished. */
  predicate GrantsFull(c: Conn, p: Pdu)
  {
    && p.nsg == STAGE_FULL && p.finishOk
    && ((Secured(c.stage) && p.undecided == 0 && p.joinOk) || (c.stage == Operational && !StillNegotiating(p)))
  }

  predicate StaysOn(c: Conn, p: Pdu)
  {
    p.nsg == STAGE_FULL && StillNegotiating(p) && (Secured(c.stage) || c.stage == Operational)
  }

  /** The exact decision on a transit request, and the stage that follows. */
  lemma TransitionDecides(c: Conn, p: Pdu)
    ensures var (d, r) := Transition(c, p);
            && (r == Accepted(true, STAGE_OPERATIONAL) <==> GrantsOperational(c, p))
            && (r == Accepted(true, STAGE_FULL) <==> GrantsFull(c, p))
            && (r == Accepted(false, STAGE_OPERATIONAL) <==> StaysOn(c, p))
            && (r == Refused(false) <==> !GrantsOperational(c, p) && !GrantsFull(c, p) && !StaysOn(c, p))
            && Finish(d) == c.(stage :=
                 if GrantsFull(c, p) then if c.discovery then Full else Kernel
                 else if GrantsOperational(c, p) || StaysOn(c, p) then Operational
                 else Close)
  {
  }

  /** The response that the target expects of a name. */
  predicate RightResponse(cfg: Config, c: Conn, p: Pdu)
  {
    && p.chapN.Some? && (c.tid, p.chapN.value) in cfg.secrets
    && p.chapR == Digest(cfg.digest(c.alg, c.id, cfg.secrets[(c.tid, p.chapN.value)], c.challenge))
  }

  predicate Challenged(cfg: Config, c: Conn)
  {
    && c.stage == SecurityAuth && c.auth == Chap && c.authState == CHALLENGE
    && c.tid in cfg.protected && (c.alg == MD5 || c.alg == SHA1)
  }

  predicate Proper(p: Pdu)
  {
    p.login && p.immediate && p.versionOk
  }

  /** A challenged initiator is authenticated if and only if it sends the digest of the challenge under a secret of its
      target; otherwise the connection is closed. One that wants the target to authenticate as well must make that
      possible; an empty challenge of its own leaves it where it is. */
  lemma ResponseDecides(cfg: Config, c: Conn, p: Pdu)
    requires Challenged(cfg, c) && Proper(p) && p.csg == STAGE_SECURITY && !p.transit
    ensures Serve(cfg, c, p).stage ==
            if !RightResponse(cfg, c, p) || p.mutual.MutualError? then Close
            else if p.mutual.EmptyChallenge? then SecurityAuth
            else SecurityDone
    ensures ExecLogin(cfg, c, p).1.Refused? <==> !RightResponse(cfg, c, p) || p.mutual.MutualError?
    ensures RightResponse(cfg, c, p) && !p.mutual.MutualError? ==>
            Serve(cfg, c, p).proof == Proof(p.chapN.value, p.chapR.digest)
  {
  }

  /** The first supported algorithm of the initiator's list is taken, and the challenge sent with it. */
  lemma {:induction false} PickAlgDecides(algs: seq<nat>)
    ensures PickAlg(algs).None? <==> MD5 !in algs && SHA1 !in algs
    ensures PickAlg(algs).Some? ==>
      exists i | 0 <= i < |algs| :: algs[i] == PickAlg(algs).value && algs[i] in {MD5, SHA1} &&
                                    MD5 !in algs[..i] && SHA1 !in algs[..i]
  {
    if algs != [] {
      PickAlgDecides(algs[1..]);
      if algs[0] != MD5 && algs[0] != SHA1 && PickAlg(algs).Some? {
        var i :| 0 <= i < |algs[1..]| && algs[1..][i] == PickAlg(algs[1..]).value &&
                 algs[1..][i] in {MD5, SHA1} && MD5 !in algs[1..][..i] && SHA1 !in algs[1..][..i];
        assert algs[..i + 1] == [algs[0]] + algs[1..][..i];
        assert algs[i + 1] == PickAlg(algs).value;
      }
    }
  }

  /** What the first PDU of a connection leads to, when it does not ask to go on yet: security without authentication,
      authentication, the operational stage, or the end. */
  lemma FirstPduDecides(cfg: Config, p: Pdu)
    requires Proper(p) && !p.transit
    ensures Serve(cfg, NEW_CONN, p).stage ==
            if p.found.NotFound? then Close
            else if p.csg == STAGE_SECURITY then
              if p.found.tid in cfg.protected then if Offers(p.offers, OfferChap) then SecurityAuth else Close
              else if Offers(p.offers, OfferNone) then Security else Close
            else if p.csg == STAGE_OPERATIONAL && p.found.tid !in cfg.protected && p.textOk then Operational
            else Close
    ensures p.found.Found? && Serve(cfg, NEW_CONN, p).stage != Close ==>
            Serve(cfg, NEW_CONN, p).tid == p.found.tid && Serve(cfg, NEW_CONN, p).discovery == p.found.discovery
  {
    if p.found.Found? {
      ScanKeysDecides(p.found.tid in cfg.protected, Unknown, p.offers);
    }
  }

  /** A PDU of a stage that the connection is not in ends it, and anything but an immediate login PDU changes
      nothing. */
  lemma StageMatters(cfg: Config, c: Conn, p: Pdu)
    requires !Transient(c.stage)
    ensures !p.login || !p.immediate ==> ExecLogin(cfg, c, p) == (c, Rejected) && Serve(cfg, c, p) == c
    ensures p.login && p.immediate && !p.versionOk ==> Serve(cfg, c, p).stage == Close
    ensures Proper(p) && p.csg == STAGE_SECURITY && c.stage !in {Free, Security, SecurityAuth} ==>
              Serve(cfg, c, p).stage == Close
    ensures Proper(p) && p.csg == STAGE_OPERATIONAL && c.stage !in {Free, Operational} ==>
              Serve(cfg, c, p).stage == Close
    ensures Proper(p) && p.csg != STAGE_SECURITY && p.csg != STAGE_OPERATIONAL ==> Serve(cfg, c, p).stage == Close
  {
  }

  /** An initiator that is to authenticate is challenged if and only if it lists a supported algorithm. */
  lemma ChallengeDecides(cfg: Config, c: Conn, p: Pdu)
    requires c.stage == SecurityAuth && c.auth == Chap && c.authState == START
    requires Proper(p) && p.csg == STAGE_SECURITY
    ensures var d := Serve(cfg, c, p);
            if p.chapA.Some? && (MD5 in p.chapA.value || SHA1 in p.chapA.value)
            then d.stage == SecurityAuth && d.authState == CHALLENGE && d.id == p.newId && d.challenge == p.newChallenge
            else d.stage == Close
  {
    if p.chapA.Some? {
      PickAlgDecides(p.chapA.value);
    }
  }

  // ---- the PDUs of initiators ----

  predicate Hello(p: Pdu, tid: nat, discovery: bool)
  {
    Proper(p) && p.found == Found(tid, discovery)
  }

  /** A PDU of the security stage that asks to go on to nsg. */
  predicate SecurityPdu(p: Pdu, transit: bool, nsg: nat)
  {
    Proper(p) && p.csg == STAGE_SECURITY && p.transit == transit && p.nsg == nsg && (transit ==> p.joinOk)
  }

  /** A PDU of the operational stage that the target understands. */
  predicate OperationalPdu(p: Pdu)
  {
    Proper(p) && p.csg == STAGE_OPERATIONAL && p.textOk
  }

  predicate LastPdu(p: Pdu)
  {
    OperationalPdu(p) && p.transit && p.nsg == STAGE_FULL && p.undecided == 0 && p.finishOk
  }

  function FullStage(discovery: bool): Stage { if discovery then Full else Kernel }

  // ---- steps ----

  lemma SecurityToOperational(cfg: Config, p: Pdu, tid: nat, discovery: bool)
    requires tid !in cfg.protected && Hello(p, tid, discovery) && SecurityPdu(p, true, STAGE_OPERATIONAL)
    requires Offers(p.offers, OfferNone)
    ensures Serve(cfg, NEW_CONN, p) ==
            NEW_CONN.(stage := Operational, tid := tid, discovery := discovery, auth := NoAuth)
  {
    ScanKeysDecides(false, Unknown, p.offers);
  }

  lemma SecurityToFull(cfg: Config, p: Pdu, tid: nat, discovery: bool)
    requires tid !in cfg.protected && Hello(p, tid, discovery) && SecurityPdu(p, true, STAGE_FULL)
    requires Offers(p.offers, OfferNone) && p.undecided == 0 && p.finishOk
    ensures Serve(cfg, NEW_CONN, p).stage == FullStage(discovery)
  {
    ScanKeysDecides(false, Unknown, p.offers);
  }

  lemma OperationalToFull(cfg: Config, c: Conn, p: Pdu)
    requires c.stage == Operational && LastPdu(p)
    ensures Serve(cfg, c, p) == c.(stage := FullStage(c.discovery))
  {
  }

  lemma StartsOperational(cfg: Config, p: Pdu, tid: nat, discovery: bool)
    requires tid !in cfg.protected && Hello(p, tid, discovery) && OperationalPdu(p) && !p.transit
    ensures Serve(cfg, NEW_CONN, p) == NEW_CONN.(stage := Operational, tid := tid, discovery := discovery)
  {
  }

  lemma ChapOffered(cfg: Config, p: Pdu, tid: nat, discovery: bool)
    requires tid in cfg.protected && Hello(p, tid, discovery) && SecurityPdu(p, false, p.nsg)
    requires Offers(p.offers, OfferChap)
    ensures Serve(cfg, NEW_CONN, p) ==
            NEW_CONN.(stage := SecurityAuth, tid := tid, discovery := discovery, auth := Chap)
  {
    ScanKeysDecides(true, Unknown, p.offers);
  }

  lemma ChapChallenged(cfg: Config, c: Conn, p: Pdu, alg: nat)
    requires c.stage == SecurityAuth && c.auth == Chap && c.authState == START && SecurityPdu(p, false, p.nsg)
    requires p.chapA.Some? && PickAlg(p.chapA.value) == Some(alg)
    ensures Serve(cfg, c, p) == c.(alg := alg, authState := CHALLENGE, id := p.newId, challenge := p.newChallenge)
  {
  }

  lemma ChapAnswered(cfg: Config, c: Conn, p: Pdu)
    requires Challenged(cfg, c) && RightResponse(cfg, c, p) && SecurityPdu(p, true, STAGE_OPERATIONAL)
    requires p.mutual.NotWanted? || p.mutual.Answered?
    ensures Serve(cfg, c, p) == c.(stage := Operational, proof := Proof(p.chapN.value, p.chapR.digest))
  {
  }

  // ---- runs ----

  lemma TraceCons(serve: (Conn, Pdu) -> Conn, c: Conn, p: Pdu, ps: seq<Pdu>)
    requires c.stage != Close
    ensures Trace(serve, c, [p] + ps) == [c] + Trace(serve, serve(c, p), ps)
  {
    assert ([p] + ps)[1..] == ps;
  }

  function Last(t: seq<Conn>): Conn
    requires t != []
  {
    t[|t| - 1]
  }

  predicate AllRounds(ps: seq<Pdu>)
  {
    forall i | 0 <= i < |ps| :: OperationalPdu(ps[i]) && !ps[i].transit
  }

  /** Rounds of the operational stage that do not ask to go on change nothing. */
  lemma {:induction false} Rounds(cfg: Config, serve: (Conn, Pdu) -> Conn, c: Conn, ps: seq<Pdu>, last: Pdu)
    requires serve == Server(cfg) && c.stage == Operational && LastPdu(last)
    requires AllRounds(ps)
    ensures Trace(serve, c, ps + [last]) != []
    ensures Last(Trace(serve, c, ps + [last])) == c.(stage := FullStage(c.discovery))
    decreases |ps|
  {
    if ps == [] {
      OperationalToFull(cfg, c, last);
      assert ps + [last] == [last] + [];
      TraceCons(serve, c, last, []);
    } else {
      assert serve(c, ps[0]) == c;
      Rounds(cfg, serve, c, ps[1..], last);
      assert ps + [last] == [ps[0]] + (ps[1..] + [last]);
      TraceCons(serve, c, ps[0], ps[1..] + [last]);
    }
  }

  predicate GetsIn(t: seq<Conn>, tid: nat, discovery: bool)
  {
    t != [] && Last(t).stage == FullStage(discovery) && Last(t).tid == tid
  }

  /** A target without accounts: security without authentication, any rounds of negotiation, full feature phase. */
  lemma PlainLoginSucceeds(cfg: Config, first: Pdu, ps: seq<Pdu>, last: Pdu, tid: nat, discovery: bool)
    requires tid !in cfg.protected && Hello(first, tid, discovery) && SecurityPdu(first, true, STAGE_OPERATIONAL)
    requires Offers(first.offers, OfferNone) && AllRounds(ps) && LastPdu(last)
    ensures GetsIn(Login.Login(cfg, [first] + (ps + [last])), tid, discovery)
  {
    SecurityToOperational(cfg, first, tid, discovery);
    Rounds(cfg, Server(cfg), Serve(cfg, NEW_CONN, first), ps, last);
    TraceCons(Server(cfg), NEW_CONN, first, ps + [last]);
  }

  /** A target without accounts, with nothing to negotiate: one PDU. */
  lemma ShortLoginSucceeds(cfg: Config, p: Pdu, tid: nat, discovery: bool)
    requires tid !in cfg.protected && Hello(p, tid, discovery) && SecurityPdu(p, true, STAGE_FULL)
    requires Offers(p.offers, OfferNone) && p.undecided == 0 && p.finishOk
    ensures GetsIn(Login.Login(cfg, [p]), tid, discovery)
  {
    SecurityToFull(cfg, p, tid, discovery);
    assert [p] == [p] + [];
    TraceCons(Server(cfg), NEW_CONN, p, []);
  }

  /** A target without accounts, from an initiator that starts in the operational stage. */
  lemma OperationalLoginSucceeds(cfg: Config, first: Pdu, ps: seq<Pdu>, last: Pdu, tid: nat, discovery: bool)
    requires tid !in cfg.protected && Hello(first, tid, discovery) && OperationalPdu(first) && !first.transit
    requires AllRounds(ps) && LastPdu(last)
    ensures GetsIn(Login.Login(cfg, [first] + (ps + [last])), tid, discovery)
  {
    StartsOperational(cfg, first, tid, discovery);
    Rounds(cfg, Server(cfg), Serve(cfg, NEW_CONN, first), ps, last);
    TraceCons(Server(cfg), NEW_CONN, first, ps + [last]);
  }

  /** The connection once challenged. */
  function Challenge(tid: nat, discovery: bool, alg: nat, p: Pdu): Conn
  {
    NEW_CONN.(stage := SecurityAuth, tid := tid, discovery := discovery, auth := Chap, alg := alg,
              authState := CHALLENGE, id := p.newId, challenge := p.newChallenge)
  }

  /** The rounds after the right response. */
  lemma ChapEnds(cfg: Config, c: Conn, answer: Pdu, ps: seq<Pdu>, last: Pdu)
    requires Challenged(cfg, c) && RightResponse(cfg, c, answer) && SecurityPdu(answer, true, STAGE_OPERATIONAL)
    requires (answer.mutual.NotWanted? || answer.mutual.Answered?) && AllRounds(ps) && LastPdu(last)
    ensures GetsIn(Trace(Server(cfg), c, [answer] + (ps + [last])), c.tid, c.discovery)
  {
    ChapAnswered(cfg, c, answer);
    Rounds(cfg, Server(cfg), Serve(cfg, c, answer), ps, last);
    TraceCons(Server(cfg), c, answer, ps + [last]);
  }

  /** The two PDUs up to the challenge. */
  lemma ChapBegins(cfg: Config, offer: Pdu, algs: Pdu, rest: seq<Pdu>, tid: nat, discovery: bool, alg: nat)
    requires tid in cfg.protected && Hello(offer, tid, discovery) && SecurityPdu(offer, false, offer.nsg)
    requires Offers(offer.offers, OfferChap)
    requires SecurityPdu(algs, false, algs.nsg) && algs.chapA.Some? && PickAlg(algs.chapA.value) == Some(alg)
    ensures var c1 := Serve(cfg, NEW_CONN, offer);
            Login.Login(cfg, [offer] + ([algs] + rest)) ==
            [NEW_CONN] + ([c1] + Trace(Server(cfg), Challenge(tid, discovery, alg, algs), rest))
  {
    ChapOffered(cfg, offer, tid, discovery);
    ChapChallenged(cfg, Serve(cfg, NEW_CONN, offer), algs, alg);
    TraceCons(Server(cfg), Serve(cfg, NEW_CONN, offer), algs, rest);
    TraceCons(Server(cfg), NEW_CONN, offer, [algs] + rest);
  }

  /** A target with accounts: CHAP offered, an algorithm, the right response to the challenge, any rounds of
      negotiation, full feature phase. */
  lemma ChapLoginSucceeds(cfg: Config, offer: Pdu, algs: Pdu, answer: Pdu, ps: seq<Pdu>, last: Pdu, tid: nat,
                          discovery: bool, alg: nat)
    requires tid in cfg.protected && Hello(offer, tid, discovery) && SecurityPdu(offer, false, offer.nsg)
    requires Offers(offer.offers, OfferChap)
    requires SecurityPdu(algs, false, algs.nsg) && algs.chapA.Some? && PickAlg(algs.chapA.value) == Some(alg)
    requires SecurityPdu(answer, true, STAGE_OPERATIONAL) && (answer.mutual.NotWanted? || answer.mutual.Answered?)
    requires RightResponse(cfg, Challenge(tid, discovery, alg, algs), answer)
    requires AllRounds(ps) && LastPdu(last)
    ensures GetsIn(Login.Login(cfg, [offer] + ([algs] + ([answer] + (ps + [last])))), tid, discovery)
  {
    PickAlgDecides(algs.chapA.value);
    ChapEnds(cfg, Challenge(tid, discovery, alg, algs), answer, ps, last);
    ChapBegins(cfg, offer, algs, [answer] + (ps + [last]), tid, discovery, alg);
  }
}
