/**
 Runs of the registration protocol that show what can happen, and with them the exact
 conditions under which registration means what it says.
 */
module RegistrationRuns {
  import opened Common
  import opened SipIdentity
  import opened DomainLists
  import opened Registration

  ghost predicate Reaches(s: State, t: State) {
    exists es :: IsRun(s, es, t)
  }

  lemma {:induction false} RunThenRun(s: State, es: seq<Event>, t: State, fs: seq<Event>, u: State)
    requires IsRun(s, es, t) && IsRun(t, fs, u)
    ensures IsRun(s, es + fs, u)
    decreases |es|
  {
    hide Enabled, Step;
    if es == [] {
      assert [] + fs == fs;
    } else {
      assert (es + fs)[0] == es[0] && (es + fs)[1..] == es[1..] + fs;
      RunThenRun(Step(s, es[0]), es[1..], t, fs, u);
    }
  }

  lemma ReachesThrough(s: State, t: State, u: State)
    requires Reaches(s, t) && Reaches(t, u)
    ensures Reaches(s, u)
  {
    hide IsRun;
    var es :| IsRun(s, es, t);
    var fs :| IsRun(t, fs, u);
    RunThenRun(s, es, t, fs, u);
  }

  lemma ReachesBy(s: State, es: seq<Event>, t: State)
    requires IsRun(s, es, t)
    ensures Reaches(s, t)
  {
    hide IsRun;
  }

  lemma ReachesItself(s: State)
    ensures Reaches(s, s)
  {
    assert IsRun(s, [], s);
  }

  lemma ReachesStep(s: State, e: Event)
    requires Enabled(s, e)
    ensures Reaches(s, Step(s, e))
  {
    hide Enabled, Step;
    assert [e][1..] == [];
    assert IsRun(Step(s, e), [], Step(s, e));
    assert IsRun(s, [e], Step(s, e));
  }

  lemma ReachesThenStep(s: State, t: State, e: Event)
    requires Reaches(s, t) && Enabled(t, e)
    ensures Reaches(s, Step(t, e))
  {
    hide Enabled, Step, Reaches;
    ReachesStep(t, e);
    ReachesThrough(s, t, Step(t, e));
  }

  function AsSet(rs: seq<Request>): set<Request> { set r | r in rs }

  /** The state after the rest of a tick that nothing interrupts. */
  function AfterTick(s: State, l: nat, j: nat, ok: seq<bool>): State
    requires l < |s.lowers| && j <= |s.lowers[l].nodes| == |ok|
  {
    var low := s.lowers[l];
    WithLower(s, l, low.(cursor := Some(|low.nodes|)))
      .(requests := s.requests + AsSet(Sending(l, low.id, low.ip, low.nodes, ok, j)))
  }

  /** The visits of a tick from node `j` on, one after the other. */
  function Visits(l: nat, j: nat, ok: seq<bool>): seq<Event>
    requires j <= |ok|
    decreases |ok| - j
  {
    if j == |ok| then [] else [Visit(l, ok[j])] + Visits(l, j + 1, ok)
  }

  /** Visits that nothing interrupts send what the timer function sends. */
  lemma {:induction false} VisitsAreRegisterProc(s: State, l: nat, j: nat, ok: seq<bool>)
    requires l < |s.lowers| && j <= |s.lowers[l].nodes| == |ok| && s.lowers[l].cursor == Some(j)
    ensures IsRun(s, Visits(l, j, ok), AfterTick(s, l, j, ok))
    decreases |s.lowers[l].nodes| - j
  {
    hide Step, Enabled, AfterTick, Sending, IsRun;
    if j == |ok| {
      NothingToVisit(s, l, ok);
      RunNothing(s);
    } else {
      VisitStep(s, l, j, ok);
      VisitsAreRegisterProc(Step(s, Visit(l, ok[j])), l, j + 1, ok);
      RunFrom(s, Visit(l, ok[j]), Visits(l, j + 1, ok), AfterTick(s, l, j, ok));
    }
  }

  lemma RunNothing(s: State)
    ensures IsRun(s, [], s)
  {
  }

  lemma RunFrom(s: State, e: Event, es: seq<Event>, t: State)
    requires Enabled(s, e) && IsRun(Step(s, e), es, t)
    ensures IsRun(s, [e] + es, t)
  {
    hide Enabled, Step;
    assert ([e] + es)[1..] == es;
  }

  lemma NothingToVisit(s: State, l: nat, ok: seq<bool>)
    requires l < |s.lowers| && |s.lowers[l].nodes| == |ok| && s.lowers[l].cursor == Some(|ok|)
    ensures AfterTick(s, l, |ok|, ok) == s
  {
    var low := s.lowers[l];
    assert low.(cursor := Some(|low.nodes|)) == low && s.lowers[l := low] == s.lowers;
    assert AsSet([]) == {};
  }

  lemma VisitStep(s: State, l: nat, j: nat, ok: seq<bool>)
    requires l < |s.lowers| && j < |s.lowers[l].nodes| == |ok| && s.lowers[l].cursor == Some(j)
    ensures Enabled(s, Visit(l, ok[j]))
    ensures var t := Step(s, Visit(l, ok[j]));
            && l < |t.lowers| && t.lowers[l] == s.lowers[l].(cursor := Some(j + 1))
            && AfterTick(t, l, j + 1, ok) == AfterTick(s, l, j, ok)
  {
    hide RequestFor;
    var low := s.lowers[l];
    var t := Step(s, Visit(l, ok[j]));
    SplitSending(l, low.id, low.ip, low.nodes, ok, j);
    assert t.lowers[l] == low.(cursor := Some(j + 1));
    assert AfterTick(t, l, j + 1, ok).lowers == AfterTick(s, l, j, ok).lowers;
    assert AfterTick(t, l, j + 1, ok).requests == AfterTick(s, l, j, ok).requests;
  }

  lemma SplitSending(l: nat, id: string, ip: string, nodes: seq<DomainInfo>, ok: seq<bool>, j: nat)
    requires j < |nodes| == |ok|
    ensures AsSet(Sending(l, id, ip, nodes, ok, j)) ==
            (if !nodes[j].registered && ok[j] then {RequestFor(l, id, ip, j, nodes[j])} else {}) +
            AsSet(Sending(l, id, ip, nodes, ok, j + 1))
  {
    hide RequestFor;
  }

  /** From any state a tick can be brought to its end and another one run, which sends for every unregistered node. */
  lemma CanSend(s: State, l: nat, k: nat) returns (t: State)
    requires IsNode(s, l, k) && !IsRegistered(s, l, k) &&
      (s.lowers[l].cursor.Some? ==> s.lowers[l].cursor.value <= |s.lowers[l].nodes|)
    ensures Reaches(s, t) && |t.lowers| == |s.lowers| && t == WithLower(s, l, t.lowers[l]).(requests := t.requests)
    ensures t.lowers[l] == s.lowers[l].(cursor := Some(|s.lowers[l].nodes|))
    ensures RequestFor(l, s.lowers[l].id, s.lowers[l].ip, k, s.lowers[l].nodes[k]) in t.requests
  {
    hide Reaches, Sending, RequestFor, IsRun, Visits;
    var low := s.lowers[l];
    var ok := seq(|low.nodes|, i => true);
    var u := s;
    ReachesItself(s);
    if low.cursor.Some? {
      VisitsAreRegisterProc(s, l, low.cursor.value, ok);
      ReachesBy(s, Visits(l, low.cursor.value, ok), AfterTick(s, l, low.cursor.value, ok));
      u := AfterTick(s, l, low.cursor.value, ok);
      ReachesThenStep(s, u, EndTick(l));
      u := Step(u, EndTick(l));
    }
    ReachesThenStep(s, u, Tick(l));
    u := Step(u, Tick(l));
    VisitsAreRegisterProc(u, l, 0, ok);
    t := AfterTick(u, l, 0, ok);
    ReachesBy(u, Visits(l, 0, ok), t);
    ReachesThrough(s, u, t);
    SentIffUnregistered(l, low.id, low.ip, low.nodes, ok, 0, RequestFor(l, low.id, low.ip, k, low.nodes[k]));
    RequestNames(l, low.id, low.ip, k, low.nodes[k]);
  }

  /** What an undisturbed handler of `r` leaves behind when it reads `id`: what DealWithRegister does and answers. */
  function AfterHandler(s: State, r: Request, tag: string, id: string): State
    requires r.dest in s.uppers
  {
    if !Listed(s.uppers[r.dest], id) then
      s.(handlers := s.handlers + [Handler(r, tag, Answered)], answers := s.answers + {Answer(r, SIP_FORBIDDEN)})
    else if r.expires.None? then
      s.(handlers := s.handlers + [Handler(r, tag, HeaderMissing)], down := s.down + {r.dest})
    else
      AfterStore(s, r.dest, id, r.expires.value)
        .(handlers := s.handlers + [Handler(r, tag, Answered)], answers := s.answers + {Answer(r, SIP_OK)})
  }

  /** The steps of handler number `h` after the check. */
  function AfterCheck(h: nat, r: Request, known: bool): seq<Event> {
    if known && r.expires.Some? then [HandlerStep(h)] + [HandlerStep(h)] else [HandlerStep(h)]
  }

  /** All its steps: the request comes in, the check, the recording if it is known, the answer. */
  function HandlerRun(h: nat, r: Request, tag: string, known: bool): seq<Event> {
    [Receive(r, tag)] + ([HandlerStep(h)] + AfterCheck(h, r, known))
  }

  /** A handler that nothing interrupts does what the upper domain's method does. */
  lemma HandlerIsDealWithRegister(s: State, r: Request, tag: string, id: string)
    requires r in s.requests && IsUp(s, r.dest) && ParseFromId(Some(Printed(r.from, tag))) == Some(id)
    ensures IsRun(s, HandlerRun(|s.handlers|, r, tag, Listed(s.uppers[r.dest], id)), AfterHandler(s, r, tag, id))
    ensures var t := AfterHandler(s, r, tag, id);
            && (!Listed(s.uppers[r.dest], id) ==>
                  t.uppers == s.uppers && t.down == s.down && t.answers == s.answers + {Answer(r, 404)})
            && (Listed(s.uppers[r.dest], id) && r.expires.None? ==>
                  t.uppers == s.uppers && t.down == s.down + {r.dest} && t.answers == s.answers)
            && (Listed(s.uppers[r.dest], id) && r.expires.Some? ==>
                  t.uppers == s.uppers[r.dest := WithExpires(s.uppers[r.dest], id, r.expires.value)] &&
                  t.down == s.down && t.answers == s.answers + {Answer(r, 200)})
  {
    hide IsRun, ParseFromId, Printed, WithExpires, Listed, AfterCheck;
    assert AfterHandler(s, r, tag, id).lowers == s.lowers;
    hide AfterHandler;
    var h := |s.handlers|;
    var known := Listed(s.uppers[r.dest], id);
    var a := Step(s, Receive(r, tag));
    assert a.handlers[h] == Handler(r, tag, Received);
    var b := Step(a, HandlerStep(h));
    var t := AfterHandler(s, r, tag, id);
    assert b.handlers == s.handlers + [Handler(r, tag, if known then Known(id) else Unknown)];
    LastHandlerSteps(s, b, r, tag, id);
    RunFrom(a, HandlerStep(h), AfterCheck(h, r, known), t);
    RunFrom(s, Receive(r, tag), [HandlerStep(h)] + AfterCheck(h, r, known), t);
  }

  /** From the state after the check. */
  lemma LastHandlerSteps(s: State, b: State, r: Request, tag: string, id: string)
    requires IsUp(s, r.dest) && b == s.(handlers := b.handlers)
    requires b.handlers == s.handlers + [Handler(r, tag, if Listed(s.uppers[r.dest], id) then Known(id) else Unknown)]
    ensures IsRun(b, AfterCheck(|s.handlers|, r, Listed(s.uppers[r.dest], id)), AfterHandler(s, r, tag, id))
  {
    hide IsRun, WithExpires, Listed;
    var h := |s.handlers|;
    var t := AfterHandler(s, r, tag, id);
    var u := Step(b, HandlerStep(h));
    RunNothing(t);
    if Listed(s.uppers[r.dest], id) && r.expires.Some? {
      var v := Step(u, HandlerStep(h));
      assert v.handlers == s.handlers + [Handler(r, tag, Answered)];
      RunFrom(u, HandlerStep(h), [], t);
      RunFrom(b, HandlerStep(h), [HandlerStep(h)] + [], t);
      assert [HandlerStep(h)] + [] == [HandlerStep(h)];
    } else {
      assert u.handlers == t.handlers;
      RunFrom(b, HandlerStep(h), [], t);
      assert [HandlerStep(h)] + [] == [HandlerStep(h)];
    }
  }

  // ---- registering one node

  /** Every kind of step but a handler's leaves the lists and the domains that are up alone. */
  lemma CanHandle(c: State, s: State, l: nat, k: nat, e: string) returns (t: State, r: Request)
    requires SameLowers(c, s) && SameUppers(c, s) && KnownAs(c, l, k, e)
    requires !IsRegistered(s, l, k) && Dest(c, l, k) !in s.down
    ensures Dest(c, l, k) in s.uppers && r.lower == l && r.node == k && r.expires == ExpiresHeader(Expiry(c, l, k))
    ensures Reaches(s, t) && SameLowers(c, t)
    ensures forall m: nat, j: nat :: IsRegistered(t, m, j) <==> IsRegistered(s, m, j)
    ensures HasHeader(c, l, k) ==> t.uppers == Recorded(c, s, l, k, e).uppers && t.down == s.down
    ensures HasHeader(c, l, k) ==> Answer(r, SIP_OK) in t.answers
    ensures !HasHeader(c, l, k) ==> t.uppers == s.uppers && Dest(c, l, k) in t.down
  {
    hide Reaches, IsRun, ParseFromId, Printed, WithExpires, ReadAs, Listed, FromHeader, HandlerRun, RequestFor;
    NodesStay(c, s, l, k);
    assert SameLower(c.lowers[l], s.lowers[l]);
    ReadAsIff(c.lowers[l].id, c.lowers[l].ip, e);
    var tag :| ParseFromId(Some(Printed(FromHeader(c.lowers[l].id, c.lowers[l].ip), tag))) == Some(e);
    var u := CanSend(s, l, k);
    r := RequestFor(l, s.lowers[l].id, s.lowers[l].ip, k, s.lowers[l].nodes[k]);
    RequestNames(l, s.lowers[l].id, s.lowers[l].ip, k, s.lowers[l].nodes[k]);
    ListedStays(c, s, l, k, e);
    HandlerIsDealWithRegister(u, r, tag, e);
    t := AfterHandler(u, r, tag, e);
    ReachesBy(u, HandlerRun(|u.handlers|, r, tag, true), t);
    ReachesThrough(s, u, t);
  }

  /**
   Registers one node under `e`, which its header can be read as: its expiry is recorded there, and
   nothing else changes.
   */
  lemma CanRegister(c: State, s: State, l: nat, k: nat, e: string) returns (t: State)
    requires SameLowers(c, s) && SameUppers(c, s) && KnownAs(c, l, k, e) && HasHeader(c, l, k)
    requires !IsRegistered(s, l, k) && Dest(c, l, k) !in s.down
    ensures Dest(c, l, k) in s.uppers && t.uppers == Recorded(c, s, l, k, e).uppers && t.down == s.down
    ensures Reaches(s, t) && SameLowers(c, t) && SameUppers(c, t) && IsRegistered(t, l, k)
    ensures forall m: nat, j: nat :: (m != l || j != k) ==> (IsRegistered(t, m, j) <==> IsRegistered(s, m, j))
  {
    hide Reaches, ReadAs, Listed, WithExpires, SameUppers;
    NodesStay(c, s, l, k);
    var v, r := CanHandle(c, s, l, k, e);
    NodesStay(c, v, l, k);
    StoreKeepsIds(c, s, Dest(c, l, k), e, Expiry(c, l, k));
    SameUppersByLists(c, Recorded(c, s, l, k, e), v);
    ReachesThenStep(s, v, Callback(Answer(r, SIP_OK)));
    t := Step(v, Callback(Answer(r, SIP_OK)));
    SameUppersByLists(c, v, t);
    MarkedStaysSame(c, v, l, k, t);
  }

  lemma SameUppersByLists(c: State, s: State, t: State)
    requires SameUppers(c, s) && t.uppers == s.uppers
    ensures SameUppers(c, t)
  {
  }

  lemma MarkedStaysSame(c: State, s: State, l: nat, k: nat, t: State)
    requires SameLowers(c, s) && IsNode(s, l, k)
    requires t == WithLower(s, l, s.lowers[l].(nodes := AfterCallback(s.lowers[l].nodes, k, SIP_OK)))
    ensures SameLowers(c, t) && IsRegistered(t, l, k)
    ensures forall m: nat, j: nat :: (m != l || j != k) ==> (IsRegistered(t, m, j) <==> IsRegistered(s, m, j))
  {
    assert SameLower(c.lowers[l], s.lowers[l]);
  }

  // ---- what can still happen

  /** An answer that will register the node is on its way. */
  ghost predicate AnswerWaits(s: State, l: nat, k: nat) {
    exists a {:trigger a in s.answers} :: a in s.answers && a.req.lower == l && a.req.node == k && a.code == SIP_OK
  }

  /** The node's peer is down, and nothing that would register it is left. */
  ghost predicate Silent(c: State, s: State, l: nat, k: nat)
    requires IsNode(c, l, k)
  {
    Dest(c, l, k) in s.down && !IsRegistered(s, l, k) && !AnswerWaits(s, l, k)
  }

  lemma StepKeepsSilent(c: State, s: State, e: Event, l: nat, k: nat)
    requires IsNode(c, l, k) && Inv(c, OwnIds(c), s) && Silent(c, s, l, k) && Enabled(s, e)
    ensures Silent(c, Step(s, e), l, k)
  {
    hide SameLowers, SameUppers, DownGood, StartKept, RequestsGood, AnswersGood, RegisteredGood, Backed, KnownAs,
      Genuine, WithExpires;
    var t := Step(s, e);
    if e.HandlerStep? {
      assert HandlerGood(c, OwnIds(c), s, s.handlers[e.h]);
      GenuineNode(c, s.handlers[e.h].req);
    }
    forall a | a in t.answers && a.req.lower == l && a.req.node == k ensures a.code != SIP_OK { }
  }

  lemma {:induction false} RunKeepsSilent(c: State, s: State, es: seq<Event>, t: State, l: nat, k: nat)
    requires IsNode(c, l, k) && Inv(c, OwnIds(c), s) && Silent(c, s, l, k) && IsRun(s, es, t)
    ensures Silent(c, t, l, k)
    decreases |es|
  {
    hide Inv, Silent, Enabled, Step;
    if es != [] {
      StepKeepsSilent(c, s, es[0], l, k);
      StepKeepsInv(c, OwnIds(c), s, es[0]);
      RunKeepsSilent(c, Step(s, es[0]), es[1..], t, l, k);
    }
  }

  lemma ReachedInv(c: State, w: seq<string>, s: State)
    requires Init(c) && IsWatch(c, w) && Reaches(c, s)
    ensures Inv(c, w, s)
  {
    hide Init, Inv, IsRun;
    var es :| IsRun(c, es, s);
    InitInv(c, w);
    RunKeepsInv(c, w, c, es, s);
  }

  /**
   From a reachable state a node can still become registered exactly if it is registered, an
   answer for it is on its way, or its peer is up, knows the sender and finds an Expires header.
   */
  lemma CanRegisterIffAccepted(c: State, s: State, l: nat, k: nat)
    requires Init(c) && Reaches(c, s) && IsNode(c, l, k)
    ensures (exists t :: Reaches(s, t) && IsRegistered(t, l, k)) <==>
            IsRegistered(s, l, k) || AnswerWaits(s, l, k) || (AcceptedAt(c, l, k) && Dest(c, l, k) !in s.down)
  {
    hide Init, Reaches, SameLowers, SameUppers, KnownAs, AnswerWaits, Backed, StartKept, DownGood;
    ReachedInv(c, OwnIds(c), s);
    if t :| Reaches(s, t) && IsRegistered(t, l, k) {
      RegisteredFrom(c, s, t, l, k);
    }
    if IsRegistered(s, l, k) {
      ReachesItself(s);
    } else if AnswerWaits(s, l, k) {
      var t := CallsBack(c, s, l, k);
    } else if AcceptedAt(c, l, k) && Dest(c, l, k) !in s.down {
      var e :| KnownAs(c, l, k, e);
      var t := CanRegister(c, s, l, k, e);
    }
  }

  lemma RegisteredFrom(c: State, s: State, t: State, l: nat, k: nat)
    requires Init(c) && Reaches(c, s) && IsNode(c, l, k) && Reaches(s, t) && IsRegistered(t, l, k)
    ensures IsRegistered(s, l, k) || AnswerWaits(s, l, k) || (AcceptedAt(c, l, k) && Dest(c, l, k) !in s.down)
  {
    hide Init, IsRun, Inv, AnswerWaits, AcceptedAt;
    ReachedInv(c, OwnIds(c), s);
    ReachesThrough(c, s, t);
    AcceptedWhenRegistered(c, t, l, k);
    if Silent(c, s, l, k) {
      var es :| IsRun(s, es, t);
      RunKeepsSilent(c, s, es, t, l, k);
    }
  }

  lemma AcceptedWhenRegistered(c: State, s: State, l: nat, k: nat)
    requires Init(c) && Reaches(c, s) && IsRegistered(s, l, k)
    ensures IsNode(c, l, k) && AcceptedAt(c, l, k)
  {
    hide Init, Reaches, AcceptedAt, SameUppers, StartKept, DownGood;
    ReachedInv(c, OwnIds(c), s);
  }

  lemma CallsBack(c: State, s: State, l: nat, k: nat) returns (t: State)
    requires IsNode(c, l, k) && SameLowers(c, s) && AnswerWaits(s, l, k)
    ensures Reaches(s, t) && IsRegistered(t, l, k)
  {
    hide Reaches;
    NodesStay(c, s, l, k);
    var a :| a in s.answers && a.req.lower == l && a.req.node == k && a.code == SIP_OK;
    ReachesStep(s, Callback(a));
    t := Step(s, Callback(a));
  }

  // ---- when a handler follows the missing header

  /** No upper domain ever goes down. */
  ghost predicate NeverDown(c: State) {
    forall s: State :: Reaches(c, s) ==> s.down == {}
  }

  /** Every node that its peer knows has an expiry that is sent. */
  ghost predicate HeadersSent(c: State) {
    forall l: nat, k: nat :: IsKnown(c, l, k) ==> IsNode(c, l, k) && HasHeader(c, l, k)
  }

  /** That is exactly when no handler follows a null pointer. */
  lemma NeverDownIffHeadersSent(c: State)
    requires Init(c)
    ensures NeverDown(c) <==> HeadersSent(c)
  {
    hide Init, Reaches, KnownAs, SameLowers, SameUppers, StartKept;
    if HeadersSent(c) {
      forall s: State | Reaches(c, s) ensures s.down == {} {
        ReachedInv(c, OwnIds(c), s);
        NobodyBringsDown(c, s);
      }
    } else {
      var l: nat, k: nat :| IsKnown(c, l, k) && !(IsNode(c, l, k) && HasHeader(c, l, k));
      var t := MissingHeaderBringsDown(c, l, k);
    }
  }

  lemma NobodyBringsDown(c: State, s: State)
    requires HeadersSent(c) && DownGood(c, s)
    ensures s.down == {}
  {
    hide IsKnown, HasHeader;
    assert forall d :: d !in s.down;
  }

  lemma MissingHeaderBringsDown(c: State, l: nat, k: nat) returns (t: State)
    requires Init(c) && IsKnown(c, l, k) && (IsNode(c, l, k) ==> !HasHeader(c, l, k))
    ensures Reaches(c, t) && t.down != {}
  {
    hide Reaches, ReadAs, Listed, StartKept;
    InitInv(c, OwnIds(c));
    var e :| KnownAs(c, l, k, e);
    var r;
    t, r := CanHandle(c, c, l, k, e);
  }

  // ---- when registration means being listed

  /** In every reachable state every registered node's peer lists the sender's own id. */
  ghost predicate AlwaysListed(c: State) {
    forall s: State, l: nat, k: nat :: Reaches(c, s) && IsRegistered(s, l, k) ==>
      IsNode(c, l, k) && ListedAt(c, s, l, k)
  }

  /** A peer that accepts a node also lists the sender's own id. */
  ghost predicate OwnIdsListed(c: State) {
    forall l: nat, k: nat :: IsNode(c, l, k) && AcceptedAt(c, l, k) ==> ListedAt(c, c, l, k)
  }

  /** That is exactly when registration always means being listed. */
  lemma AlwaysListedIffOwnIdsListed(c: State)
    requires Init(c)
    ensures AlwaysListed(c) <==> OwnIdsListed(c)
  {
    hide Init, Reaches, ListedAt, AcceptedAt, IsRegistered;
    if OwnIdsListed(c) {
      forall s: State, l: nat, k: nat | Reaches(c, s) && IsRegistered(s, l, k)
        ensures IsNode(c, l, k) && ListedAt(c, s, l, k) {
        ListedWhenRegistered(c, s, l, k);
      }
    } else {
      var l: nat, k: nat :| IsNode(c, l, k) && AcceptedAt(c, l, k) && !ListedAt(c, c, l, k);
      var t := UnlistedRegisters(c, l, k);
    }
  }

  lemma ListedAtStays(c: State, s: State, l: nat, k: nat)
    requires SameUppers(c, s) && IsNode(c, l, k)
    ensures ListedAt(c, c, l, k) <==> ListedAt(c, s, l, k)
  {
    var d := Dest(c, l, k);
    if d in c.uppers { SameIdsFoundAlike(c.uppers[d], s.uppers[d], c.lowers[l].id); }
  }

  lemma ListedWhenRegistered(c: State, s: State, l: nat, k: nat)
    requires Init(c) && OwnIdsListed(c) && Reaches(c, s) && IsRegistered(s, l, k)
    ensures IsNode(c, l, k) && ListedAt(c, s, l, k)
  {
    hide Init, Reaches, ListedAt, AcceptedAt, SameIds, StartKept;
    ReachedInv(c, OwnIds(c), s);
    AcceptedWhenRegistered(c, s, l, k);
    ListedAtStays(c, s, l, k);
  }

  lemma UnlistedRegisters(c: State, l: nat, k: nat) returns (t: State)
    requires Init(c) && IsNode(c, l, k) && AcceptedAt(c, l, k) && !ListedAt(c, c, l, k)
    ensures Reaches(c, t) && IsRegistered(t, l, k) && !ListedAt(c, t, l, k)
  {
    hide Reaches, SameLowers, SameUppers, ListedAt, KnownAs, StartKept;
    InitInv(c, OwnIds(c));
    var e :| KnownAs(c, l, k, e);
    t := CanRegister(c, c, l, k, e);
    ListedAtStays(c, t, l, k);
  }

  predicate TwentyCharacterIds(c: State) {
    forall l :: 0 <= l < |c.lowers| ==> |c.lowers[l].id| == ID_LENGTH
  }

  lemma KnownIsSender(c: State, l: nat, k: nat, e: string)
    requires TwentyCharacterIds(c) && IsNode(c, l, k)
    ensures KnownAs(c, l, k, e) <==> e == c.lowers[l].id && ListedAt(c, c, l, k)
  {
    hide ReadAs, Listed;
    TwentyCharactersReadAsThemselves(c.lowers[l].id, c.lowers[l].ip, e);
  }

  /** Ids of 20 characters are enough. */
  lemma TwentyCharacterIdsAreOwn(c: State)
    requires TwentyCharacterIds(c)
    ensures OwnIdsListed(c)
  {
    hide TwentyCharacterIds, ListedAt, KnownAs;
    forall l: nat, k: nat | IsNode(c, l, k) && AcceptedAt(c, l, k) ensures ListedAt(c, c, l, k) {
      var e :| KnownAs(c, l, k, e);
      KnownIsSender(c, l, k, e);
    }
  }

  /** With ids of 20 characters a registered node's peer lists the sender's own id. */
  lemma RegisteredIsListed(c: State, es: seq<Event>, s: State, l: nat, k: nat)
    requires TwentyCharacterIds(c) && Init(c) && IsRun(c, es, s) && IsNode(c, l, k)
    ensures IsRegistered(s, l, k) ==> ListedAt(c, s, l, k)
  {
    hide Init, IsRun, ListedAt, TwentyCharacterIds, OwnIdsListed;
    ReachesBy(c, es, s);
    TwentyCharacterIdsAreOwn(c);
    if IsRegistered(s, l, k) { ListedWhenRegistered(c, s, l, k); }
  }

  /** With ids of 20 characters what can still happen depends on the sender's own id. */
  lemma CanRegisterIffListed(c: State, s: State, l: nat, k: nat)
    requires TwentyCharacterIds(c) && Init(c) && Reaches(c, s) && IsNode(c, l, k)
    ensures (exists t :: Reaches(s, t) && IsRegistered(t, l, k)) <==>
            IsRegistered(s, l, k) || AnswerWaits(s, l, k) ||
            (ListedAt(c, c, l, k) && HasHeader(c, l, k) && Dest(c, l, k) !in s.down)
  {
    hide Init, Reaches, KnownAs, ListedAt, TwentyCharacterIds, IsRegistered, AnswerWaits;
    CanRegisterIffAccepted(c, s, l, k);
    KnownIsSender(c, l, k, c.lowers[l].id);
    forall e ensures KnownAs(c, l, k, e) ==> ListedAt(c, c, l, k) { KnownIsSender(c, l, k, e); }
  }

  // ---- when registration means that the expiry is recorded

  /** In every reachable state the watched entry of every registered node holds its expiry. */
  ghost predicate AlwaysRecorded(c: State, w: seq<string>)
    requires IsWatch(c, w)
  {
    forall s: State, l: nat, k: nat :: Reaches(c, s) && IsRegistered(s, l, k) ==>
      IsNode(c, l, k) && WatchedAt(c, w, s, l, k)
  }

  /**
   For ids of any length and whatever entry is watched: exactly if everyone who writes the
   watched entry of an accepted node writes the same expiry, and a node that can be read as
   something else finds its expiry there from the start.
   */
  lemma AlwaysRecordedIffKeeps(c: State, w: seq<string>)
    requires Init(c) && IsWatch(c, w)
    ensures AlwaysRecorded(c, w) <==> Keeps(c, w)
  {
    hide Init, Reaches, KeepsNode, AcceptedAt, WatchedAt, IsRegistered;
    if Keeps(c, w) {
      forall s: State, l: nat, k: nat | Reaches(c, s) && IsRegistered(s, l, k)
        ensures IsNode(c, l, k) && WatchedAt(c, w, s, l, k) {
        WatchedWhenRegistered(c, w, s, l, k);
      }
    } else {
      var l: nat, k: nat :| IsNode(c, l, k) && AcceptedAt(c, l, k) && !KeepsNode(c, w, l, k);
      var t := UnkeptIsLost(c, w, l, k);
    }
  }

  lemma WatchedWhenRegistered(c: State, w: seq<string>, s: State, l: nat, k: nat)
    requires Init(c) && IsWatch(c, w) && Keeps(c, w) && Reaches(c, s) && IsRegistered(s, l, k)
    ensures IsNode(c, l, k) && WatchedAt(c, w, s, l, k)
  {
    hide Init, Keeps, WatchedAt, IsRun, IsRegistered;
    var es :| IsRun(c, es, s);
    RegisteredIsWatched(c, w, es, s, l, k);
  }

  lemma UnkeptIsLost(c: State, w: seq<string>, l: nat, k: nat) returns (t: State)
    requires Init(c) && IsWatch(c, w) && IsNode(c, l, k) && AcceptedAt(c, l, k) && !KeepsNode(c, w, l, k)
    ensures Reaches(c, t) && IsRegistered(t, l, k) && !WatchedAt(c, w, t, l, k)
  {
    hide Init, Reaches, KnownAs, WatchedAt;
    if m: nat, j: nat :| WritesWatched(c, w, l, k, m, j) && Expiry(c, m, j) != Expiry(c, l, k) {
      t := Overwritten(c, w, l, k, m, j);
    } else {
      var e :| KnownAs(c, l, k, e) && e != w[l] && !WatchedAt(c, w, c, l, k);
      t := RecordedElsewhere(c, w, l, k, e);
    }
  }

  /** Another node's expiry goes over the node's own. */
  lemma Overwritten(c: State, w: seq<string>, l: nat, k: nat, m: nat, j: nat) returns (t: State)
    requires Init(c) && IsWatch(c, w) && IsNode(c, l, k) && AcceptedAt(c, l, k)
    requires WritesWatched(c, w, l, k, m, j) && Expiry(c, m, j) != Expiry(c, l, k)
    ensures Reaches(c, t) && IsRegistered(t, l, k) && !WatchedAt(c, w, t, l, k)
  {
    hide Reaches, ReadAs, WithExpires, ExpiresOf, SameLowers, SameUppers, StartKept, Listed;
    InitInv(c, w);
    var e :| KnownAs(c, l, k, e);
    var s := CanRegister(c, c, l, k, e);
    t := CanRegister(c, s, m, j, w[l]);
    ReachesThrough(c, s, t);
    ListedStays(c, s, m, j, w[l]);
    WithExpiresSeen(s.uppers[Dest(c, m, j)], w[l], Expiry(c, m, j), w[l]);
  }

  /** The node's expiry goes to another entry, and the watched one stays as it was. */
  lemma RecordedElsewhere(c: State, w: seq<string>, l: nat, k: nat, e: string) returns (t: State)
    requires Init(c) && IsWatch(c, w) && IsNode(c, l, k) && AcceptedAt(c, l, k)
    requires KnownAs(c, l, k, e) && e != w[l] && !WatchedAt(c, w, c, l, k)
    ensures Reaches(c, t) && IsRegistered(t, l, k) && !WatchedAt(c, w, t, l, k)
  {
    hide Reaches, ReadAs, Listed, WithExpires, ExpiresOf, SameLowers, SameUppers, StartKept;
    InitInv(c, w);
    t := CanRegister(c, c, l, k, e);
    WithExpiresSeen(c.uppers[Dest(c, l, k)], e, Expiry(c, l, k), w[l]);
  }

  // ---- the two entries one would watch: the sender's own id, and the id it is read as

  /** What the header is read as when the tag is out of reach. */
  function ReadIds(c: State): (w: seq<string>)
    ensures IsWatch(c, w) && forall l :: 0 <= l < |w| ==>
      w[l] == FirstCharacters(BeforeTag(c.lowers[l].id, c.lowers[l].ip))
  {
    seq(|c.lowers|, l requires 0 <= l < |c.lowers| => FirstCharacters(BeforeTag(c.lowers[l].id, c.lowers[l].ip)))
  }

  /** Every header is long enough to be read as one id only: id and address have 13 characters or more. */
  predicate TagOutOfReach(c: State) {
    forall l :: 0 <= l < |c.lowers| ==> |BeforeTag(c.lowers[l].id, c.lowers[l].ip)| >= ID_LENGTH
  }

  /** Two nodes whose requests write the same entry of the same list, under the ids `w`. */
  predicate SameEntry(c: State, w: seq<string>, l: nat, k: nat, m: nat, j: nat)
    requires IsWatch(c, w)
  {
    && IsNode(c, l, k) && IsNode(c, m, j) && HasHeader(c, l, k) && HasHeader(c, m, j)
    && w[l] == w[m] && Dest(c, l, k) == Dest(c, m, j)
    && Dest(c, l, k) in c.uppers && Listed(c.uppers[Dest(c, l, k)], w[l])
  }

  /** Nodes with the same entry are configured with the same expiry. */
  ghost predicate Consistent(c: State, w: seq<string>)
    requires IsWatch(c, w)
  {
    forall l: nat, k: nat, m: nat, j: nat :: SameEntry(c, w, l, k, m, j) ==> Expiry(c, l, k) == Expiry(c, m, j)
  }

  /** Each lower domain is read as its watched id and as nothing else. */
  ghost predicate ReadOnlyAs(c: State, w: seq<string>)
    requires IsWatch(c, w)
  {
    forall l: nat, e: string {:trigger ReadAs(c.lowers[l].id, c.lowers[l].ip, e)} ::
      l < |c.lowers| ==> (ReadAs(c.lowers[l].id, c.lowers[l].ip, e) <==> e == w[l])
  }

  lemma KeepsIffConsistent(c: State, w: seq<string>)
    requires IsWatch(c, w) && ReadOnlyAs(c, w)
    ensures Keeps(c, w) <==> Consistent(c, w)
  {
    hide ReadAs, Listed, WatchedAt;
    if Consistent(c, w) {
      forall l: nat, k: nat | IsNode(c, l, k) && AcceptedAt(c, l, k) ensures KeepsNode(c, w, l, k) {
        var e :| KnownAs(c, l, k, e);
        forall m: nat, j: nat | WritesWatched(c, w, l, k, m, j) ensures Expiry(c, m, j) == Expiry(c, l, k) {
          assert SameEntry(c, w, l, k, m, j);
        }
      }
    }
    if Keeps(c, w) {
      forall l: nat, k: nat, m: nat, j: nat | SameEntry(c, w, l, k, m, j) ensures Expiry(c, l, k) == Expiry(c, m, j) {
        assert KnownAs(c, l, k, w[l]) && KnownAs(c, m, j, w[l]);
        assert KeepsNode(c, w, l, k) && WritesWatched(c, w, l, k, m, j);
      }
    }
  }

  /** With ids of 20 characters: the sender's own entry, exactly if nodes that share an entry share their expiry. */
  lemma AlwaysRecordedIffConsistent(c: State)
    requires TwentyCharacterIds(c) && Init(c)
    ensures AlwaysRecorded(c, OwnIds(c)) <==> Consistent(c, OwnIds(c))
  {
    hide Init, ReadAs, AlwaysRecorded, Keeps, Consistent;
    forall l: nat, e: string | l < |c.lowers| ensures ReadAs(c.lowers[l].id, c.lowers[l].ip, e) <==> e == OwnIds(c)[l] {
      TwentyCharactersReadAsThemselves(c.lowers[l].id, c.lowers[l].ip, e);
    }
    KeepsIffConsistent(c, OwnIds(c));
    AlwaysRecordedIffKeeps(c, OwnIds(c));
  }

  /** With consistent expiries the sender's own entry holds what the node is configured with. */
  lemma RegisteredIsRecorded(c: State, es: seq<Event>, s: State, l: nat, k: nat)
    requires TwentyCharacterIds(c) && Consistent(c, OwnIds(c)) && Init(c) && IsRun(c, es, s) && IsRegistered(s, l, k)
    ensures IsNode(c, l, k) && WatchedAt(c, OwnIds(c), s, l, k)
  {
    hide Init, IsRun, Consistent, WatchedAt, TwentyCharacterIds;
    ReachesBy(c, es, s);
    AlwaysRecordedIffConsistent(c);
  }

  /**
   With ids of any length that keep the tag out of reach: the entry that is written, exactly if those
   who write it agree.
   */
  lemma AlwaysRecordedAsReadIffConsistent(c: State)
    requires TagOutOfReach(c) && Init(c)
    ensures AlwaysRecorded(c, ReadIds(c)) <==> Consistent(c, ReadIds(c))
  {
    hide Init, AlwaysRecorded, Keeps, Consistent, BeforeTag;
    forall l: nat, e: string | l < |c.lowers| ensures ReadAs(c.lowers[l].id, c.lowers[l].ip, e) <==>
      e == ReadIds(c)[l] {
      assert |BeforeTag(c.lowers[l].id, c.lowers[l].ip)| >= ID_LENGTH;
    }
    KeepsIffConsistent(c, ReadIds(c));
    AlwaysRecordedIffKeeps(c, ReadIds(c));
  }

  predicate DistinctIds(c: State) {
    forall l, m :: 0 <= l < m < |c.lowers| ==> c.lowers[l].id != c.lowers[m].id
  }

  /** No lower domain has two nodes at the same address. */
  ghost predicate DistinctDestinations(c: State) {
    forall l: nat, k: nat, j: nat :: IsNode(c, l, k) && IsNode(c, l, j) && k != j ==> Dest(c, l, k) != Dest(c, l, j)
  }

  /** The usual setup, distinct ids and one node for each peer, is consistent. */
  lemma DistinctIsConsistent(c: State)
    requires DistinctIds(c) && DistinctDestinations(c)
    ensures Consistent(c, OwnIds(c))
  {
  }

  // ---- setups that fail

  /** Some senders with one node each at `at`, and what the domain there lists. */
  function OneDomain(lowers: seq<Lower>, listed: string, at: Address): State {
    State(lowers, map[at := [DomainInfo(listed, "127.0.0.1", 5060, 0, false, 0, false)]], {}, {}, [], {})
  }

  function NodeAt(at: Address, expires: int): DomainInfo {
    DomainInfo("upper", at.ip, at.port, 0, false, expires, false)
  }

  lemma OneDomainInit(lowers: seq<Lower>, listed: string, at: Address)
    requires forall l :: 0 <= l < |lowers| ==> lowers[l].cursor == None
    requires forall l, k :: 0 <= l < |lowers| && 0 <= k < |lowers[l].nodes| ==> !lowers[l].nodes[k].registered
    ensures Init(OneDomain(lowers, listed, at))
  {
  }

  lemma OneListed(listed: string, at: Address, lowers: seq<Lower>)
    ensures forall e :: Listed(OneDomain(lowers, listed, at).uppers[at], e) <==> e == listed
  {
  }

  /** One lower domain with two nodes at one address, 3600 and 7200 seconds, that the peer knows. */
  function TwoExpiries(id: string, at: Address): State {
    OneDomain([Lower(id, "127.0.0.1", [NodeAt(at, 3600), NodeAt(at, 7200)], None)], id, at)
  }

  lemma TwoExpiriesAreLost(id: string, at: Address)
    requires |id| == ID_LENGTH
    ensures Init(TwoExpiries(id, at)) && TwentyCharacterIds(TwoExpiries(id, at))
    ensures !AlwaysRecorded(TwoExpiries(id, at), OwnIds(TwoExpiries(id, at)))
  {
    hide AlwaysRecorded, Listed, Init;
    var c := TwoExpiries(id, at);
    OneDomainInit(c.lowers, id, at);
    OneListed(id, at, c.lowers);
    assert SameEntry(c, OwnIds(c), 0, 0, 0, 1) && Expiry(c, 0, 0) != Expiry(c, 0, 1);
    AlwaysRecordedIffConsistent(c);
  }

  /** Two senders whose ids differ only after 20 characters, and a peer that lists those 20. */
  function SharedStart(id: string, a: char, b: char, at: Address): State {
    OneDomain([Lower(id + [a], "127.0.0.1", [NodeAt(at, 3600)], None),
      Lower(id + [b], "127.0.0.1", [NodeAt(at, 7200)], None)], id, at)
  }

  lemma SharedStartIsLost(id: string, a: char, b: char, at: Address)
    requires |id| == ID_LENGTH
    ensures Init(SharedStart(id, a, b, at)) && TagOutOfReach(SharedStart(id, a, b, at))
    ensures !AlwaysRecorded(SharedStart(id, a, b, at), ReadIds(SharedStart(id, a, b, at)))
  {
    hide AlwaysRecorded, Listed, Init;
    var c := SharedStart(id, a, b, at);
    OneDomainInit(c.lowers, id, at);
    OneListed(id, at, c.lowers);
    LongIdReadAs(id, a, "127.0.0.1");
    LongIdReadAs(id, b, "127.0.0.1");
    assert SameEntry(c, ReadIds(c), 0, 0, 1, 0) && Expiry(c, 0, 0) != Expiry(c, 1, 0);
    AlwaysRecordedAsReadIffConsistent(c);
  }

  /** A sender whose id goes on after 20 characters, and a peer that lists only the first 20. */
  function LongId(id: string, more: char, at: Address): State {
    OneDomain([Lower(id + [more], "127.0.0.1", [NodeAt(at, 3600)], None)], id, at)
  }

  lemma LongIdRegistersUnlisted(id: string, more: char, at: Address)
    requires |id| == ID_LENGTH
    ensures Init(LongId(id, more, at)) && !AlwaysListed(LongId(id, more, at))
  {
    hide AlwaysListed, ReadAs, Listed, Init;
    var c := LongId(id, more, at);
    OneDomainInit(c.lowers, id, at);
    OneListed(id, at, c.lowers);
    LongIdReadAs(id, more, "127.0.0.1");
    assert KnownAs(c, 0, 0, id) && HasHeader(c, 0, 0);
    assert IsNode(c, 0, 0) && AcceptedAt(c, 0, 0) && !ListedAt(c, c, 0, 0);
    AlwaysListedIffOwnIdsListed(c);
  }

  lemma LongIdReadAs(id: string, more: char, ip: string)
    requires |id| == ID_LENGTH
    ensures ReadAs(id + [more], ip, id) && |BeforeTag(id + [more], ip)| >= ID_LENGTH
    ensures FirstCharacters(BeforeTag(id + [more], ip)) == id
  {
    assert BeforeTag(id + [more], ip)[..ID_LENGTH] == id;
  }

  /** A known sender whose node has no expiry configured, which is read as -1. */
  function NoExpiry(id: string, at: Address): State {
    OneDomain([Lower(id, "127.0.0.1", [NodeAt(at, NOT_SPECIFIED)], None)], id, at)
  }

  lemma NoExpiryBringsDown(id: string, at: Address)
    requires |id| == ID_LENGTH
    ensures Init(NoExpiry(id, at)) && !NeverDown(NoExpiry(id, at))
  {
    hide NeverDown, ReadAs, Listed, Init;
    var c := NoExpiry(id, at);
    OneDomainInit(c.lowers, id, at);
    OneListed(id, at, c.lowers);
    TwentyCharactersReadAsThemselves(id, "127.0.0.1", id);
    assert KnownAs(c, 0, 0, id) && !HasHeader(c, 0, 0);
    NeverDownIffHeadersSent(c);
  }
}
