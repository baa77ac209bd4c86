/**
 Registration between lower and upper domains as interleaved steps: timer ticks that visit
 one node at a time, REGISTER requests and answers that the network may lose, repeat and
 reorder, handlers that take the list's lock once to check and once to record, and callbacks.
 */
module Registration {
  import opened Common
  import opened SipIdentity
  import opened DomainLists

  /** A lower domain; `cursor` is where its running timer tick stands. */
  datatype Lower = Lower(id: string, ip: string, nodes: seq<DomainInfo>, cursor: Option<nat>)

  /** Where a handler of a request is; it keeps the id it read. */
  datatype Phase =
    | Received
    | Known(fromId: string)   // found in the list
    | Unknown                 // not found in the list
    | Stored                  // expiry recorded
    | Answered
    | Threw                   // substr threw
    | HeaderMissing           // followed the missing Expires header

  datatype Handler = Handler(req: Request, tag: string, phase: Phase)

  datatype Answer = Answer(req: Request, code: int)

  datatype State = State(
    lowers: seq<Lower>,
    uppers: map<Address, seq<DomainInfo>>,
    down: set<Address>,       // upper domains that a handler brought down
    requests: set<Request>,   // every request ever sent
    handlers: seq<Handler>,
    answers: set<Answer>)     // every answer ever sent

  datatype Event =
    | Tick(l: nat)
    | Visit(l: nat, ok: bool)        // the next node of the tick; `ok`: sending would succeed
    | EndTick(l: nat)
    | Receive(req: Request, tag: string)
    | HandlerStep(h: nat)
    | Callback(answer: Answer)

  ghost predicate Init(s: State) {
    && (forall l :: 0 <= l < |s.lowers| ==> s.lowers[l].cursor == None)
    && (forall l: nat, k: nat :: !IsRegistered(s, l, k))
    && s.down == {} && s.requests == {} && s.handlers == [] && s.answers == {}
  }

  predicate IsNode(s: State, l: nat, k: nat) {
    l < |s.lowers| && k < |s.lowers[l].nodes|
  }

  predicate IsRegistered(s: State, l: nat, k: nat) {
    IsNode(s, l, k) && s.lowers[l].nodes[k].registered
  }

  predicate IsUp(s: State, d: Address) {
    d in s.uppers && d !in s.down
  }

  predicate Enabled(s: State, e: Event) {
    match e
    case Tick(l) => l < |s.lowers| && s.lowers[l].cursor.None?
    case Visit(l, _) => l < |s.lowers| && s.lowers[l].cursor.Some? && s.lowers[l].cursor.value < |s.lowers[l].nodes|
    case EndTick(l) => l < |s.lowers| && s.lowers[l].cursor == Some(|s.lowers[l].nodes|)
    case Receive(req, _) => req in s.requests && IsUp(s, req.dest)
    case HandlerStep(h) => h < |s.handlers| && IsUp(s, s.handlers[h].req.dest) && !s.handlers[h].phase.Answered?
    case Callback(a) => a in s.answers && IsNode(s, a.req.lower, a.req.node)
  }

  function Step(s: State, e: Event): State
    requires Enabled(s, e)
  {
    match e
    case Tick(l) => WithLower(s, l, s.lowers[l].(cursor := Some(0)))
    case Visit(l, ok) => VisitNode(s, l, ok)
    case EndTick(l) => WithLower(s, l, s.lowers[l].(cursor := None))
    case Receive(req, tag) => s.(handlers := s.handlers + [Handler(req, tag, Received)])
    case HandlerStep(h) => StepHandler(s, h)
    case Callback(a) =>
      var low := s.lowers[a.req.lower];
      WithLower(s, a.req.lower, low.(nodes := AfterCallback(low.nodes, a.req.node, a.code)))
  }

  function WithLower(s: State, l: nat, low: Lower): State
    requires l < |s.lowers|
  {
    s.(lowers := s.lowers[l := low])
  }

  function VisitNode(s: State, l: nat, ok: bool): State
    requires Enabled(s, Visit(l, ok))
  {
    var low := s.lowers[l];
    var k := low.cursor.value;
    var sent := if !low.nodes[k].registered && ok then {RequestFor(l, low.id, low.ip, k, low.nodes[k])} else {};
    WithLower(s, l, low.(cursor := Some(k + 1))).(requests := s.requests + sent)
  }

  function WithPhase(s: State, h: nat, p: Phase): State
    requires h < |s.handlers|
  {
    s.(handlers := s.handlers[h := s.handlers[h].(phase := p)])
  }

  function BringDown(s: State, h: nat, p: Phase): State
    requires h < |s.handlers|
  {
    WithPhase(s, h, p).(down := s.down + {s.handlers[h].req.dest})
  }

  function StepHandler(s: State, h: nat): State
    requires Enabled(s, HandlerStep(h))
  {
    var (req, tag) := (s.handlers[h].req, s.handlers[h].tag);
    var list := s.uppers[req.dest];
    match s.handlers[h].phase
    case Received =>
      var id := ParseFromId(Some(Printed(req.from, tag)));
      if id.None? then BringDown(s, h, Threw)
      else WithPhase(s, h, if Listed(list, id.value) then Known(id.value) else Unknown)
    case Known(id) =>
      if req.expires.None? then BringDown(s, h, HeaderMissing)
      else AfterStore(WithPhase(s, h, Stored), req.dest, id, req.expires.value)
    case Unknown => WithPhase(s, h, Answered).(answers := s.answers + {Answer(req, SIP_FORBIDDEN)})
    case Stored => WithPhase(s, h, Answered).(answers := s.answers + {Answer(req, SIP_OK)})
    case _ => s
  }

  /** The state with an expiry recorded under the id that was read. */
  function AfterStore(s: State, d: Address, fromId: string, expires: int): State
    requires d in s.uppers
  {
    s.(uppers := s.uppers[d := WithExpires(s.uppers[d], fromId, expires)])
  }

  /** From `s`, one event after the other, to `t`. */
  ghost predicate IsRun(s: State, es: seq<Event>, t: State)
    decreases |es|
  {
    if es == [] then s == t
    else Enabled(s, es[0]) && IsRun(Step(s, es[0]), es[1..], t)
  }

  // ---- the setup that no step changes

  predicate SameLower(a: Lower, b: Lower) {
    && a.id == b.id && a.ip == b.ip && |a.nodes| == |b.nodes|
    && (b.cursor.Some? ==> b.cursor.value <= |b.nodes|)
    && forall k :: 0 <= k < |a.nodes| ==> b.nodes[k] == a.nodes[k].(registered := b.nodes[k].registered)
  }

  predicate SameIds(xs: seq<DomainInfo>, ys: seq<DomainInfo>) {
    |xs| == |ys| && forall i :: 0 <= i < |xs| ==> xs[i].sipId == ys[i].sipId
  }

  predicate SameLowers(c: State, s: State) {
    |c.lowers| == |s.lowers| && forall l :: 0 <= l < |c.lowers| ==> SameLower(c.lowers[l], s.lowers[l])
  }

  predicate SameUppers(c: State, s: State) {
    c.uppers.Keys == s.uppers.Keys && forall d :: d in c.uppers.Keys ==> SameIds(c.uppers[d], s.uppers[d])
  }

  // ---- what registration means

  function Dest(c: State, l: nat, k: nat): Address
    requires IsNode(c, l, k)
  {
    Address(c.lowers[l].nodes[k].addrIp, c.lowers[l].nodes[k].sipPort)
  }

  function Expiry(c: State, l: nat, k: nat): int
    requires IsNode(c, l, k)
  {
    c.lowers[l].nodes[k].expires
  }

  /** Requests for the node carry an Expires header. */
  predicate HasHeader(c: State, l: nat, k: nat)
    requires IsNode(c, l, k)
  {
    ExpiresHeader(Expiry(c, l, k)).Some?
  }

  /** The domain that node `k` of `l` stands for lists `e`, and the sender's header can be read as `e`. */
  predicate KnownAs(c: State, l: nat, k: nat, e: string) {
    && IsNode(c, l, k) && Dest(c, l, k) in c.uppers
    && Listed(c.uppers[Dest(c, l, k)], e) && ReadAs(c.lowers[l].id, c.lowers[l].ip, e)
  }

  ghost predicate IsKnown(c: State, l: nat, k: nat) {
    exists e {:trigger KnownAs(c, l, k, e)} :: KnownAs(c, l, k, e)
  }

  /** The peer knows the sender and finds an Expires header. */
  ghost predicate AcceptedAt(c: State, l: nat, k: nat)
    requires IsNode(c, l, k)
  {
    HasHeader(c, l, k) && IsKnown(c, l, k)
  }

  /** The domain that node `k` of `l` stands for has the lower domain's own id in its list. */
  predicate ListedAt(c: State, s: State, l: nat, k: nat)
    requires IsNode(c, l, k)
  {
    Dest(c, l, k) in s.uppers && Listed(s.uppers[Dest(c, l, k)], c.lowers[l].id)
  }

  // ---- which entry holds a node's expiry

  /** An id to look under for each lower domain. */
  predicate IsWatch(c: State, w: seq<string>) { |w| == |c.lowers| }

  /** The peer's first entry for the watched id holds the node's configured expiry. */
  predicate WatchedAt(c: State, w: seq<string>, s: State, l: nat, k: nat)
    requires IsWatch(c, w) && IsNode(c, l, k)
  {
    Dest(c, l, k) in s.uppers && ExpiresOf(s.uppers[Dest(c, l, k)], w[l]) == Some(Expiry(c, l, k))
  }

  /** Node `j` of `m` writes the entry that is watched for node `k` of `l`. */
  predicate WritesWatched(c: State, w: seq<string>, l: nat, k: nat, m: nat, j: nat)
    requires IsWatch(c, w) && IsNode(c, l, k)
  {
    IsNode(c, m, j) && Dest(c, m, j) == Dest(c, l, k) && HasHeader(c, m, j) && KnownAs(c, m, j, w[l])
  }

  /**
   Whoever writes the watched entry writes the same expiry, and if the node can be read as
   something else as well, so that another entry is written, the watched one holds its
   expiry from the start.
   */
  ghost predicate KeepsNode(c: State, w: seq<string>, l: nat, k: nat)
    requires IsWatch(c, w) && IsNode(c, l, k)
  {
    && (forall m: nat, j: nat :: WritesWatched(c, w, l, k, m, j) ==> Expiry(c, m, j) == Expiry(c, l, k))
    && (forall e {:trigger KnownAs(c, l, k, e)} :: KnownAs(c, l, k, e) && e != w[l] ==> WatchedAt(c, w, c, l, k))
  }

  ghost predicate Keeps(c: State, w: seq<string>)
    requires IsWatch(c, w)
  {
    forall l: nat, k: nat {:trigger KeepsNode(c, w, l, k)} :: IsNode(c, l, k) && AcceptedAt(c, l, k) ==>
      KeepsNode(c, w, l, k)
  }

  // ---- the invariant

  /** The node is accepted, and its watched entry holds its expiry if the setup keeps that. */
  ghost predicate Backed(c: State, w: seq<string>, s: State, l: nat, k: nat)
    requires IsWatch(c, w)
  {
    IsNode(c, l, k) && AcceptedAt(c, l, k) && (Keeps(c, w) ==> WatchedAt(c, w, s, l, k))
  }

  /** What the watched entry of an accepted node held from the start it still holds. */
  ghost predicate StartKept(c: State, w: seq<string>, s: State)
    requires IsWatch(c, w)
  {
    Keeps(c, w) ==>
      forall l: nat, k: nat {:trigger WatchedAt(c, w, s, l, k)} ::
        IsNode(c, l, k) && AcceptedAt(c, l, k) && WatchedAt(c, w, c, l, k) ==> WatchedAt(c, w, s, l, k)
  }

  /** The request is one that the setup's lower domain sends. */
  predicate Genuine(c: State, r: Request) {
    IsNode(c, r.lower, r.node) &&
    r == RequestFor(r.lower, c.lowers[r.lower].id, c.lowers[r.lower].ip, r.node, c.lowers[r.lower].nodes[r.node])
  }

  /** A node whose requests bring the domain at `d` down. */
  ghost predicate BringsDown(c: State, d: Address, l: nat, k: nat) {
    IsNode(c, l, k) && Dest(c, l, k) == d && !HasHeader(c, l, k) && IsKnown(c, l, k)
  }

  ghost predicate HandlerGood(c: State, w: seq<string>, s: State, h: Handler)
    requires IsWatch(c, w)
  {
    && Genuine(c, h.req) && h.req.dest in c.uppers
    && (h.phase.Known? ==> KnownAs(c, h.req.lower, h.req.node, h.phase.fromId))
    && (h.phase.Stored? ==> Backed(c, w, s, h.req.lower, h.req.node))
    && !h.phase.Threw?
  }

  ghost predicate AnswerGood(c: State, w: seq<string>, s: State, a: Answer)
    requires IsWatch(c, w)
  {
    Genuine(c, a.req) && (a.code == SIP_OK ==> Backed(c, w, s, a.req.lower, a.req.node))
  }

  ghost predicate RequestsGood(c: State, s: State) { forall r :: r in s.requests ==> Genuine(c, r) }

  ghost predicate HandlersGood(c: State, w: seq<string>, s: State)
    requires IsWatch(c, w)
  {
    forall h :: 0 <= h < |s.handlers| ==> HandlerGood(c, w, s, s.handlers[h])
  }

  ghost predicate AnswersGood(c: State, w: seq<string>, s: State)
    requires IsWatch(c, w)
  {
    forall a :: a in s.answers ==> AnswerGood(c, w, s, a)
  }

  ghost predicate RegisteredGood(c: State, w: seq<string>, s: State)
    requires IsWatch(c, w)
  {
    forall l: nat, k: nat :: IsRegistered(s, l, k) ==> Backed(c, w, s, l, k)
  }

  /** Every domain that is down was brought down by a node without a header that it knows. */
  ghost predicate DownGood(c: State, s: State) {
    forall d :: d in s.down ==> exists l: nat, k: nat :: BringsDown(c, d, l, k)
  }

  ghost predicate Inv(c: State, w: seq<string>, s: State) {
    && IsWatch(c, w) && SameLowers(c, s) && SameUppers(c, s) && DownGood(c, s) && StartKept(c, w, s)
    && RequestsGood(c, s) && HandlersGood(c, w, s) && AnswersGood(c, w, s) && RegisteredGood(c, w, s)
  }

  lemma InitInv(c: State, w: seq<string>)
    requires Init(c) && IsWatch(c, w)
    ensures Inv(c, w, c)
  {
    hide Keeps, AcceptedAt, WatchedAt;
    forall l | 0 <= l < |c.lowers| ensures SameLower(c.lowers[l], c.lowers[l]) { }
  }

  lemma NodesStay(c: State, s: State, l: nat, k: nat)
    requires SameLowers(c, s)
    ensures IsNode(c, l, k) <==> IsNode(s, l, k)
  {
    if l < |c.lowers| { assert SameLower(c.lowers[l], s.lowers[l]); }
  }

  lemma BackedElsewhere(c: State, w: seq<string>, s: State, t: State, l: nat, k: nat)
    requires IsWatch(c, w) && s.uppers == t.uppers
    ensures Backed(c, w, s, l, k) <==> Backed(c, w, t, l, k)
  {
    hide Keeps, AcceptedAt;
  }

  lemma StartKeptElsewhere(c: State, w: seq<string>, s: State, t: State)
    requires IsWatch(c, w) && s.uppers == t.uppers && StartKept(c, w, s)
    ensures StartKept(c, w, t)
  {
    hide Keeps, AcceptedAt, WatchedAt;
    if Keeps(c, w) {
      forall l: nat, k: nat | IsNode(c, l, k) && AcceptedAt(c, l, k) && WatchedAt(c, w, c, l, k)
        ensures WatchedAt(c, w, t, l, k) {
        WatchedElsewhere(c, w, s, t, l, k);
      }
    }
  }

  lemma WatchedElsewhere(c: State, w: seq<string>, s: State, t: State, l: nat, k: nat)
    requires IsWatch(c, w) && IsNode(c, l, k) && s.uppers == t.uppers
    ensures WatchedAt(c, w, s, l, k) <==> WatchedAt(c, w, t, l, k)
  {
  }

  /** A step that leaves the lists alone: what is new in it has to be good. */
  lemma SameListsKeepInv(c: State, w: seq<string>, s: State, t: State)
    requires Inv(c, w, s) && t.uppers == s.uppers && SameLowers(c, t) && DownGood(c, t) && RequestsGood(c, t)
    requires forall h :: 0 <= h < |t.handlers| ==> HandlerGood(c, w, s, t.handlers[h])
    requires forall a :: a in t.answers ==> AnswerGood(c, w, s, a)
    requires forall l: nat, k: nat :: IsRegistered(t, l, k) ==> Backed(c, w, s, l, k)
    ensures Inv(c, w, t)
  {
    hide SameLowers, SameIds, DownGood, RequestsGood, StartKept, Backed, KnownAs, Genuine, IsRegistered;
    StartKeptElsewhere(c, w, s, t);
    forall h | 0 <= h < |t.handlers| ensures HandlerGood(c, w, t, t.handlers[h]) {
      BackedElsewhere(c, w, s, t, t.handlers[h].req.lower, t.handlers[h].req.node);
    }
    forall a | a in t.answers ensures AnswerGood(c, w, t, a) { BackedElsewhere(c, w, s, t, a.req.lower, a.req.node); }
    forall l: nat, k: nat | IsRegistered(t, l, k) ensures Backed(c, w, t, l, k) { BackedElsewhere(c, w, s, t, l, k); }
  }

  lemma LowerStepKeepsInv(c: State, w: seq<string>, s: State, l: nat, low: Lower, rs: set<Request>)
    requires Inv(c, w, s) && l < |s.lowers| && SameLower(c.lowers[l], low) && RequestsGood(c, s.(requests := rs))
    requires forall k: nat :: k < |low.nodes| && low.nodes[k].registered ==> Backed(c, w, s, l, k)
    ensures Inv(c, w, WithLower(s, l, low).(requests := rs))
  {
    hide Backed, SameLower, HandlerGood, AnswerGood, SameUppers, StartKept, Genuine;
    var t := WithLower(s, l, low).(requests := rs);
    forall m: nat, k: nat | IsRegistered(t, m, k) ensures Backed(c, w, s, m, k) {
      if m != l { assert IsRegistered(s, m, k); }
    }
    SameListsKeepInv(c, w, s, t);
  }

  lemma RegisteredStayBacked(c: State, w: seq<string>, s: State, l: nat)
    requires Inv(c, w, s) && l < |s.lowers|
    ensures forall k: nat :: k < |s.lowers[l].nodes| && s.lowers[l].nodes[k].registered ==> Backed(c, w, s, l, k)
  {
    hide Backed, SameLowers, SameUppers, StartKept, HandlersGood, AnswersGood, RequestsGood;
    forall k: nat | k < |s.lowers[l].nodes| && s.lowers[l].nodes[k].registered ensures Backed(c, w, s, l, k) {
      assert IsRegistered(s, l, k);
    }
  }

  lemma TickKeepsInv(c: State, w: seq<string>, s: State, e: Event)
    requires Inv(c, w, s) && Enabled(s, e) && (e.Tick? || e.EndTick?)
    ensures Inv(c, w, Step(s, e))
  {
    hide Backed, HandlersGood, AnswersGood, SameUppers, RegisteredGood, StartKept, Genuine, DownGood;
    RegisteredStayBacked(c, w, s, e.l);
    LowerStepKeepsInv(c, w, s, e.l, Step(s, e).lowers[e.l], s.requests);
  }

  lemma VisitKeepsInv(c: State, w: seq<string>, s: State, l: nat, ok: bool)
    requires Inv(c, w, s) && Enabled(s, Visit(l, ok))
    ensures Inv(c, w, VisitNode(s, l, ok))
  {
    hide Backed, HandlersGood, AnswersGood, SameUppers, RegisteredGood, StartKept, DownGood;
    RegisteredStayBacked(c, w, s, l);
    var low := s.lowers[l];
    assert SameLower(c.lowers[l], low);
    assert Genuine(c, RequestFor(l, low.id, low.ip, low.cursor.value, low.nodes[low.cursor.value]));
    LowerStepKeepsInv(c, w, s, l, low.(cursor := Some(low.cursor.value + 1)), VisitNode(s, l, ok).requests);
  }

  lemma CallbackKeepsInv(c: State, w: seq<string>, s: State, a: Answer)
    requires Inv(c, w, s) && Enabled(s, Callback(a))
    ensures Inv(c, w, Step(s, Callback(a)))
  {
    hide Backed, RequestsGood, HandlersGood, SameUppers, RegisteredGood, Genuine, StartKept, DownGood;
    RegisteredStayBacked(c, w, s, a.req.lower);
    assert AnswerGood(c, w, s, a);
    LowerStepKeepsInv(c, w, s, a.req.lower, Step(s, Callback(a)).lowers[a.req.lower], s.requests);
  }

  lemma HandlersKeepInv(c: State, w: seq<string>, s: State, hs: seq<Handler>, answers: set<Answer>, down: set<Address>)
    requires Inv(c, w, s) && DownGood(c, s.(down := down))
    requires forall h :: 0 <= h < |hs| ==> HandlerGood(c, w, s, hs[h])
    requires forall a :: a in answers ==> AnswerGood(c, w, s, a)
    ensures Inv(c, w, s.(handlers := hs, answers := answers, down := down))
  {
    hide SameLower, SameUppers, Backed, HandlerGood, AnswerGood, StartKept, Genuine, BringsDown;
    SameListsKeepInv(c, w, s, s.(handlers := hs, answers := answers, down := down));
  }

  lemma ReceiveKeepsInv(c: State, w: seq<string>, s: State, req: Request, tag: string)
    requires Inv(c, w, s) && Enabled(s, Receive(req, tag))
    ensures Inv(c, w, Step(s, Receive(req, tag)))
  {
    hide SameLowers, RegisteredGood, AnswerGood, Genuine, Backed, SameIds, StartKept, KnownAs;
    HandlersKeepInv(c, w, s, s.handlers + [Handler(req, tag, Received)], s.answers, s.down);
  }

  lemma GenuineNode(c: State, r: Request)
    ensures Genuine(c, r) ==> IsNode(c, r.lower, r.node) && r.dest == Dest(c, r.lower, r.node) &&
                              r.expires == ExpiresHeader(Expiry(c, r.lower, r.node))
  {
  }

  lemma ListedStays(c: State, s: State, l: nat, k: nat, e: string)
    requires SameUppers(c, s) && IsNode(c, l, k) && Dest(c, l, k) in c.uppers
    ensures Dest(c, l, k) in s.uppers && (Listed(c.uppers[Dest(c, l, k)], e) <==> Listed(s.uppers[Dest(c, l, k)], e))
  {
    SameIdsFoundAlike(c.uppers[Dest(c, l, k)], s.uppers[Dest(c, l, k)], e);
  }

  // ---- recording an expiry

  /** The state after node `j` of `m` was recorded under `e`. */
  function Recorded(c: State, s: State, m: nat, j: nat, e: string): State
    requires IsNode(c, m, j) && Dest(c, m, j) in s.uppers
  {
    AfterStore(s, Dest(c, m, j), e, Expiry(c, m, j))
  }

  /** Another node's watched entry, if it held the expiry before. */
  lemma RecordKeepsWatched(c: State, w: seq<string>, s: State, m: nat, j: nat, e: string, l: nat, k: nat)
    requires IsWatch(c, w) && Keeps(c, w) && IsNode(c, l, k) && AcceptedAt(c, l, k) && WatchedAt(c, w, s, l, k)
    requires IsNode(c, m, j) && KnownAs(c, m, j, e) && HasHeader(c, m, j) && Dest(c, m, j) in s.uppers
    ensures WatchedAt(c, w, Recorded(c, s, m, j, e), l, k)
  {
    hide Keeps, AcceptedAt, WithExpires, ExpiresOf, KnownAs;
    KeepsAt(c, w, l, k);
    WithExpiresSeen(s.uppers[Dest(c, m, j)], e, Expiry(c, m, j), w[l]);
    if Dest(c, m, j) == Dest(c, l, k) && w[l] == e { assert WritesWatched(c, w, l, k, m, j); }
  }

  lemma KeepsAt(c: State, w: seq<string>, l: nat, k: nat)
    requires IsWatch(c, w) && Keeps(c, w) && IsNode(c, l, k) && AcceptedAt(c, l, k)
    ensures KeepsNode(c, w, l, k)
  {
    hide AcceptedAt, KeepsNode;
  }

  /** The node's own watched entry. */
  lemma RecordSetsWatched(c: State, w: seq<string>, s: State, m: nat, j: nat, e: string)
    requires IsWatch(c, w) && Keeps(c, w) && SameUppers(c, s) && StartKept(c, w, s)
    requires IsNode(c, m, j) && KnownAs(c, m, j, e) && HasHeader(c, m, j)
    ensures Dest(c, m, j) in s.uppers && WatchedAt(c, w, Recorded(c, s, m, j, e), m, j)
  {
    hide Keeps, WithExpires, ExpiresOf, ReadAs, SameIds, Listed;
    ListedStays(c, s, m, j, e);
    assert AcceptedAt(c, m, j);
    if e == w[m] {
      WithExpiresSeen(s.uppers[Dest(c, m, j)], e, Expiry(c, m, j), e);
    } else {
      KeepsAt(c, w, m, j);
      RecordKeepsWatched(c, w, s, m, j, e, m, j);
    }
  }

  lemma RecordKeepsBacked(c: State, w: seq<string>, s: State, m: nat, j: nat, e: string, l: nat, k: nat)
    requires IsWatch(c, w) && IsNode(c, m, j) && KnownAs(c, m, j, e) && HasHeader(c, m, j) && Dest(c, m, j) in s.uppers
    ensures Backed(c, w, s, l, k) ==> Backed(c, w, Recorded(c, s, m, j, e), l, k)
  {
    hide Keeps, AcceptedAt, KnownAs, Recorded, WatchedAt;
    if Keeps(c, w) && Backed(c, w, s, l, k) { RecordKeepsWatched(c, w, s, m, j, e, l, k); }
  }

  lemma RecordBacks(c: State, w: seq<string>, s: State, m: nat, j: nat, e: string)
    requires IsWatch(c, w) && SameUppers(c, s) && StartKept(c, w, s) && IsNode(c, m, j) && KnownAs(c, m, j, e) &&
      HasHeader(c, m, j)
    ensures Dest(c, m, j) in s.uppers && Backed(c, w, Recorded(c, s, m, j, e), m, j)
  {
    hide Keeps, Recorded, WatchedAt, StartKept, ReadAs, Listed, SameIds;
    ListedStays(c, s, m, j, e);
    assert AcceptedAt(c, m, j);
    if Keeps(c, w) { RecordSetsWatched(c, w, s, m, j, e); }
  }

  lemma RecordKeepsStart(c: State, w: seq<string>, s: State, m: nat, j: nat, e: string)
    requires IsWatch(c, w) && StartKept(c, w, s) && IsNode(c, m, j) && KnownAs(c, m, j, e) && HasHeader(c, m, j) &&
      Dest(c, m, j) in s.uppers
    ensures StartKept(c, w, Recorded(c, s, m, j, e))
  {
    hide Keeps, AcceptedAt, KnownAs, Recorded, WatchedAt;
    var t := Recorded(c, s, m, j, e);
    if Keeps(c, w) {
      forall l: nat, k: nat | IsNode(c, l, k) && AcceptedAt(c, l, k) && WatchedAt(c, w, c, l, k)
        ensures WatchedAt(c, w, t, l, k) {
        RecordKeepsWatched(c, w, s, m, j, e, l, k);
      }
    }
  }

  lemma StoreKeepsIds(c: State, s: State, d: Address, e: string, expires: int)
    requires SameUppers(c, s) && d in s.uppers
    ensures SameUppers(c, AfterStore(s, d, e, expires))
  {
    WithExpiresSeen(s.uppers[d], e, expires, e);
  }

  lemma RecordKeepsInv(c: State, w: seq<string>, s: State, m: nat, j: nat, e: string)
    requires Inv(c, w, s) && IsNode(c, m, j) && KnownAs(c, m, j, e) && HasHeader(c, m, j)
    ensures Dest(c, m, j) in s.uppers
    ensures Inv(c, w, Recorded(c, s, m, j, e)) && Backed(c, w, Recorded(c, s, m, j, e), m, j)
  {
    hide SameLower, SameUppers, StartKept, Backed, KnownAs, Genuine, WithExpires, BringsDown, IsRegistered;
    RecordBacks(c, w, s, m, j, e);
    var t := Recorded(c, s, m, j, e);
    StoreKeepsIds(c, s, Dest(c, m, j), e, Expiry(c, m, j));
    RecordKeepsStart(c, w, s, m, j, e);
    forall h | 0 <= h < |s.handlers| ensures HandlerGood(c, w, t, s.handlers[h]) {
      RecordKeepsBacked(c, w, s, m, j, e, s.handlers[h].req.lower, s.handlers[h].req.node);
    }
    forall a | a in s.answers ensures AnswerGood(c, w, t, a) {
      RecordKeepsBacked(c, w, s, m, j, e, a.req.lower, a.req.node);
    }
    forall l: nat, k: nat | IsRegistered(t, l, k) ensures Backed(c, w, t, l, k) {
      RegisteredSame(s, t, l, k);
      RecordKeepsBacked(c, w, s, m, j, e, l, k);
    }
  }

  lemma RegisteredSame(s: State, t: State, l: nat, k: nat)
    requires s.lowers == t.lowers
    ensures IsRegistered(s, l, k) <==> IsRegistered(t, l, k)
  {
  }

  // ---- handlers

  /** What a handler reads is something the sender's header can be read as. */
  lemma HandlerReadsSender(c: State, r: Request, tag: string)
    requires Genuine(c, r)
    ensures var id := ParseFromId(Some(Printed(r.from, tag)));
            id.Some? && ReadAs(c.lowers[r.lower].id, c.lowers[r.lower].ip, id.value)
  {
    hide ParseFromId, Printed, FromHeader, ReadAs, FirstCharacters, BeforeTag;
    var low := c.lowers[r.lower];
    ParsedIs(low.id, low.ip, tag);
    ReadAsIff(low.id, low.ip, FirstCharacters(BeforeTag(low.id, low.ip) + tag));
  }

  lemma PhaseKeepsInv(c: State, w: seq<string>, s: State, h: nat, p: Phase)
    requires Inv(c, w, s) && h < |s.handlers| && HandlerGood(c, w, s, s.handlers[h].(phase := p))
    ensures Inv(c, w, WithPhase(s, h, p))
  {
    hide SameLowers, SameUppers, RegisteredGood, HandlerGood, AnswerGood, StartKept, DownGood;
    HandlersKeepInv(c, w, s, s.handlers[h := s.handlers[h].(phase := p)], s.answers, s.down);
  }

  lemma CheckKeepsInv(c: State, w: seq<string>, s: State, h: nat)
    requires Inv(c, w, s) && Enabled(s, HandlerStep(h)) && s.handlers[h].phase.Received?
    ensures Inv(c, w, StepHandler(s, h))
  {
    hide SameLowers, RegisteredGood, AnswersGood, Backed, Genuine, SameIds, ParseFromId, Printed, ReadAs, Listed,
      StartKept, DownGood;
    var r := s.handlers[h].req;
    GenuineNode(c, r);
    HandlerReadsSender(c, r, s.handlers[h].tag);
    ListedStays(c, s, r.lower, r.node, ParseFromId(Some(Printed(r.from, s.handlers[h].tag))).value);
    PhaseKeepsInv(c, w, s, h, StepHandler(s, h).handlers[h].phase);
  }

  lemma KnownKeepsInv(c: State, w: seq<string>, s: State, h: nat)
    requires Inv(c, w, s) && Enabled(s, HandlerStep(h)) && s.handlers[h].phase.Known?
    ensures Inv(c, w, StepHandler(s, h))
  {
    hide SameLowers, SameUppers, RegisteredGood, AnswersGood, Genuine, KnownAs, WithExpires, Backed, StartKept,
      DownGood, RequestsGood;
    var r := s.handlers[h].req;
    var e := s.handlers[h].phase.fromId;
    GenuineNode(c, r);
    if HasHeader(c, r.lower, r.node) {
      RecordKeepsInv(c, w, s, r.lower, r.node, e);
      PhaseKeepsInv(c, w, Recorded(c, s, r.lower, r.node, e), h, Stored);
    } else {
      BringDownKeepsInv(c, w, s, h, e);
    }
  }

  lemma BringDownKeepsInv(c: State, w: seq<string>, s: State, h: nat, e: string)
    requires Inv(c, w, s) && h < |s.handlers| && Genuine(c, s.handlers[h].req)
    requires KnownAs(c, s.handlers[h].req.lower, s.handlers[h].req.node, e)
    requires !HasHeader(c, s.handlers[h].req.lower, s.handlers[h].req.node)
    ensures Inv(c, w, BringDown(s, h, HeaderMissing))
  {
    hide SameLowers, SameUppers, RegisteredGood, Genuine, KnownAs, Backed, StartKept, AnswerGood;
    var r := s.handlers[h].req;
    GenuineNode(c, r);
    assert BringsDown(c, r.dest, r.lower, r.node);
    HandlersKeepInv(c, w, s, s.handlers[h := s.handlers[h].(phase := HeaderMissing)], s.answers, s.down + {r.dest});
  }

  lemma AnswerKeepsInv(c: State, w: seq<string>, s: State, h: nat)
    requires Inv(c, w, s) && Enabled(s, HandlerStep(h)) && (s.handlers[h].phase.Unknown? || s.handlers[h].phase.Stored?)
    ensures Inv(c, w, StepHandler(s, h))
  {
    hide SameLowers, SameUppers, RegisteredGood, Backed, Genuine, KnownAs, WithExpires, StartKept, DownGood;
    var t := StepHandler(s, h);
    HandlersKeepInv(c, w, s, t.handlers, t.answers, s.down);
  }

  lemma StepKeepsInv(c: State, w: seq<string>, s: State, e: Event)
    requires Inv(c, w, s) && Enabled(s, e)
    ensures Inv(c, w, Step(s, e))
  {
    hide Inv, StepHandler, VisitNode;
    match e
    case Tick(_) => TickKeepsInv(c, w, s, e);
    case EndTick(_) => TickKeepsInv(c, w, s, e);
    case Visit(l, ok) => VisitKeepsInv(c, w, s, l, ok);
    case Receive(req, tag) => ReceiveKeepsInv(c, w, s, req, tag);
    case Callback(a) => CallbackKeepsInv(c, w, s, a);
    case HandlerStep(h) => HandlerStepKeepsInv(c, w, s, h);
  }

  lemma HandlerStepKeepsInv(c: State, w: seq<string>, s: State, h: nat)
    requires Inv(c, w, s) && Enabled(s, HandlerStep(h))
    ensures Inv(c, w, StepHandler(s, h))
  {
    hide Inv;
    match s.handlers[h].phase
    case Received => CheckKeepsInv(c, w, s, h);
    case Known(_) => KnownKeepsInv(c, w, s, h);
    case Unknown => AnswerKeepsInv(c, w, s, h);
    case Stored => AnswerKeepsInv(c, w, s, h);
    case _ =>
  }

  lemma {:induction false} RunKeepsInv(c: State, w: seq<string>, s: State, es: seq<Event>, t: State)
    requires Inv(c, w, s) && IsRun(s, es, t)
    ensures Inv(c, w, t)
    decreases |es|
  {
    hide Inv, Enabled, Step;
    if es != [] {
      StepKeepsInv(c, w, s, es[0]);
      RunKeepsInv(c, w, Step(s, es[0]), es[1..], t);
    }
  }

  // ---- safety over all runs

  /**
   In every reachable state the setup is as it was, no handler has thrown, a registered
   node's requests carry an Expires header, and its peer lists an id that the sender's
   header can be read as.
   */
  lemma RegisteredIsAccepted(c: State, es: seq<Event>, s: State, l: nat, k: nat)
    requires Init(c) && IsRun(c, es, s) && IsNode(c, l, k)
    ensures SameLowers(c, s) && SameUppers(c, s) && DownGood(c, s)
    ensures IsRegistered(s, l, k) ==> AcceptedAt(c, l, k)
    ensures forall h :: 0 <= h < |s.handlers| ==> !s.handlers[h].phase.Threw?
  {
    hide Init, IsRun, SameLower, SameIds, AcceptedAt, WatchedAt, Keeps, StartKept, DownGood;
    InitInv(c, OwnIds(c));
    RunKeepsInv(c, OwnIds(c), c, es, s);
  }

  /** The lower domains' own ids. */
  function OwnIds(c: State): (w: seq<string>)
    ensures |w| == |c.lowers|
    ensures forall l :: 0 <= l < |w| ==> w[l] == c.lowers[l].id
  {
    seq(|c.lowers|, l requires 0 <= l < |c.lowers| => c.lowers[l].id)
  }

  /** The registered nodes' watched entries hold their expiries, in every setup that keeps them. */
  lemma RegisteredIsWatched(c: State, w: seq<string>, es: seq<Event>, s: State, l: nat, k: nat)
    requires Init(c) && IsWatch(c, w) && Keeps(c, w) && IsRun(c, es, s) && IsRegistered(s, l, k)
    ensures IsNode(c, l, k) && WatchedAt(c, w, s, l, k)
  {
    hide Init, IsRun, SameLower, SameIds, AcceptedAt, WatchedAt, Keeps, StartKept, DownGood;
    InitInv(c, w);
    RunKeepsInv(c, w, c, es, s);
  }

  /** A step never takes a registration back, and never takes back a request or an answer. */
  lemma StepKeepsRegistered(s: State, e: Event, l: nat, k: nat)
    requires Enabled(s, e)
    ensures IsRegistered(s, l, k) ==> IsRegistered(Step(s, e), l, k)
    ensures s.requests <= Step(s, e).requests && s.answers <= Step(s, e).answers
  {
  }

  lemma {:induction false} RegistrationNeverReverts(s: State, es: seq<Event>, t: State, l: nat, k: nat)
    requires IsRun(s, es, t) && IsRegistered(s, l, k)
    ensures IsRegistered(t, l, k)
    decreases |es|
  {
    hide Enabled, Step, IsRegistered;
    if es != [] {
      StepKeepsRegistered(s, es[0], l, k);
      RegistrationNeverReverts(Step(s, es[0]), es[1..], t, l, k);
    }
  }
}
