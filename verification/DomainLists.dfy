/**
 The lists of neighbouring domains: the upper domain's list of lower domains with the
 handler that changes it, and the lower domain's list of upper domains with the timer
 function that registers with them.
 */
module DomainLists {
  import opened Common
  import opened SipIdentity
  import SipLocalConfig

  const SIP_OK := 200
  const SIP_FORBIDDEN := 404

  datatype DomainInfo = DomainInfo(
    sipId: string, addrIp: string, sipPort: int, protocal: int, registered: bool, expires: int, isAuth: bool)

  /** A configured lower domain. */
  datatype SubNodeInfo = SubNodeInfo(id: string, ip: string, port: int, poto: int, auth: int)

  // ---- searching by id

  /** Position of the first entry with the id, or the length of the list. */
  function FindId(xs: seq<DomainInfo>, id: string): (i: nat)
    ensures i <= |xs| && (i < |xs| ==> xs[i].sipId == id)
    ensures forall j :: 0 <= j < i ==> xs[j].sipId != id
  {
    if xs == [] || xs[0].sipId == id then 0 else 1 + FindId(xs[1..], id)
  }

  lemma {:induction false} FoundIsFirst(xs: seq<DomainInfo>, id: string, i: nat)
    requires i <= |xs| && (i < |xs| ==> xs[i].sipId == id) && forall j :: 0 <= j < i ==> xs[j].sipId != id
    ensures FindId(xs, id) == i
  {
    if i > 0 {
      assert forall j :: 0 <= j < i - 1 ==> xs[1..][j] == xs[j + 1];
      FoundIsFirst(xs[1..], id, i - 1);
    }
  }

  predicate Listed(xs: seq<DomainInfo>, id: string) {
    FindId(xs, id) < |xs|
  }

  /** What the first entry with the id holds. */
  function ExpiresOf(xs: seq<DomainInfo>, id: string): Option<int> {
    if Listed(xs, id) then Some(xs[FindId(xs, id)].expires) else None
  }

  /** The list after the first entry with the id was given a new expiry. */
  function WithExpires(xs: seq<DomainInfo>, id: string, expires: int): (ys: seq<DomainInfo>)
    ensures |ys| == |xs|
  {
    var i := FindId(xs, id);
    if i < |xs| then xs[i := xs[i].(expires := expires)] else xs
  }

  lemma SameIdsFoundAlike(xs: seq<DomainInfo>, ys: seq<DomainInfo>, id: string)
    requires |xs| == |ys| && forall i :: 0 <= i < |xs| ==> xs[i].sipId == ys[i].sipId
    ensures FindId(xs, id) == FindId(ys, id)
  {
    FoundIsFirst(ys, id, FindId(xs, id));
  }

  /** A new expiry is seen under its id and under no other; no id and no other field changes. */
  lemma WithExpiresSeen(xs: seq<DomainInfo>, id: string, expires: int, other: string)
    ensures ExpiresOf(WithExpires(xs, id, expires), other) ==
            if other == id && Listed(xs, id) then Some(expires) else ExpiresOf(xs, other)
    ensures forall i :: 0 <= i < |xs| ==>
              WithExpires(xs, id, expires)[i] == xs[i].(expires := WithExpires(xs, id, expires)[i].expires)
  {
    SameIdsFoundAlike(xs, WithExpires(xs, id, expires), other);
  }

  // ---- the upper domain

  /** An answer, an exception out of substr, or a null pointer followed for want of an Expires header. */
  datatype Reply = Response(code: int) | Thrown | NullHeader

  class UpperGlobalCtl {
    var subDomainInfoList: seq<DomainInfo>

    constructor ()
      ensures subDomainInfoList == []
    {
      subDomainInfoList := [];
    }

    /** One record is filled for every node and copied to the end; its expiry is never assigned. */
    method Init(ubNodeInfoList: seq<SubNodeInfo>)
      modifies this
      ensures subDomainInfoList == old(subDomainInfoList) + FromSubNodes(ubNodeInfoList)
    {
      var info := NEW_DOMAIN;
      var iter := 0;
      while iter < |ubNodeInfoList|
        invariant 0 <= iter <= |ubNodeInfoList|
        invariant !info.registered && info.expires == 0
        invariant subDomainInfoList == old(subDomainInfoList) + FromSubNodes(ubNodeInfoList[..iter])
      {
        var node := ubNodeInfoList[iter];
        info := info.(sipId := node.id);
        info := info.(addrIp := node.ip);
        info := info.(sipPort := node.port);
        info := info.(protocal := node.poto);
        info := info.(isAuth := node.auth != 0);
        subDomainInfoList := subDomainInfoList + [info];
        iter := iter + 1;
      }
      assert ubNodeInfoList[..iter] == ubNodeInfoList;
    }

    /** std::find over the list. */
    method Find(id: string) returns (it: nat)
      ensures it == FindId(subDomainInfoList, id)
    {
      it := 0;
      while it < |subDomainInfoList| && subDomainInfoList[it].sipId != id
        invariant it <= |subDomainInfoList| && forall j :: 0 <= j < it ==> subDomainInfoList[j].sipId != id
      {
        it := it + 1;
      }
      FoundIsFirst(subDomainInfoList, id, it);
    }

    method CheckIsExist(id: string) returns (exist: bool)
      ensures exist <==> id in Ids(subDomainInfoList)
    {
      var it := Find(id);
      ListedIffIn(subDomainInfoList, id);
      return it != |subDomainInfoList|;
    }

    method SetExpires(id: string, expires: int)
      modifies this
      ensures subDomainInfoList == WithExpires(old(subDomainInfoList), id, expires)
    {
      var it := Find(id);
      if it != |subDomainInfoList| {
        subDomainInfoList := subDomainInfoList[it := subDomainInfoList[it].(expires := expires)];
      }
    }

    /** Answers a REGISTER: 404 for an unknown id, otherwise the expiry is recorded and the answer is 200. */
    method DealWithRegister(from: Option<string>, expires: Option<int>) returns (r: Reply)
      modifies this
      ensures ParseFromId(from).None? ==> r == Thrown && subDomainInfoList == old(subDomainInfoList)
      ensures ParseFromId(from).Some? ==>
                var id := ParseFromId(from).value;
                && r == (if forall x :: x in old(subDomainInfoList) ==> x.sipId != id then Response(404)
                         else if expires.Some? then Response(200) else NullHeader)
                && subDomainInfoList == if expires.Some? then WithExpires(old(subDomainInfoList), id, expires.value)
                                        else old(subDomainInfoList)
    {
      var statusCode := SIP_OK;
      var fromId := ParseFromId(from);
      if fromId.None? { return Thrown; }
      ListedIffIn(subDomainInfoList, fromId.value);
      var exist := CheckIsExist(fromId.value);
      if !exist {
        statusCode := SIP_FORBIDDEN;
      } else {
        if expires.None? { return NullHeader; }
        SetExpires(fromId.value, expires.value);
      }
      return Response(statusCode);
    }
  }

  const NEW_DOMAIN := DomainInfo("", "", 0, 0, false, 0, false)

  function FromSubNodes(ns: seq<SubNodeInfo>): (xs: seq<DomainInfo>)
    ensures |xs| == |ns|
    ensures forall i :: 0 <= i < |ns| ==>
      xs[i] == DomainInfo(ns[i].id, ns[i].ip, ns[i].port, ns[i].poto, false, 0, ns[i].auth != 0)
  {
    seq(|ns|, i requires 0 <= i < |ns| => DomainInfo(ns[i].id, ns[i].ip, ns[i].port, ns[i].poto, false, 0,
      ns[i].auth != 0))
  }

  function Ids(xs: seq<DomainInfo>): (ids: seq<string>)
    ensures |ids| == |xs| && forall i :: 0 <= i < |xs| ==> ids[i] == xs[i].sipId
  {
    seq(|xs|, i requires 0 <= i < |xs| => xs[i].sipId)
  }

  lemma ListedIffIn(xs: seq<DomainInfo>, id: string)
    ensures Listed(xs, id) <==> id in Ids(xs)
  {
    if Listed(xs, id) { assert Ids(xs)[FindId(xs, id)] == id; }
  }

  // ---- the lower domain

  /** Where a REGISTER is sent. */
  datatype Address = Address(ip: string, port: int)

  /** A REGISTER for the node at place `node` of lower domain `lower`, with its Expires header if it has one. */
  datatype Request = Request(lower: nat, node: nat, dest: Address, from: string, expires: Option<int>)

  /** What the SIP stack takes as "not specified". */
  const NOT_SPECIFIED := -1

  /** The Expires header that the stack adds for a node's configured expiry. */
  function ExpiresHeader(expires: int): Option<int> {
    if expires == NOT_SPECIFIED then None else Some(expires)
  }

  function FromSupNodes(ns: seq<SipLocalConfig.NodeInfo>): (xs: seq<DomainInfo>)
    ensures |xs| == |ns|
    ensures forall i :: 0 <= i < |ns| ==>
      xs[i] == DomainInfo(ns[i].id, ns[i].ip, ns[i].port, ns[i].poto, false, ns[i].expires, false)
  {
    seq(|ns|, i requires 0 <= i < |ns| =>
      DomainInfo(ns[i].id, ns[i].ip, ns[i].port, ns[i].poto, false, ns[i].expires, false))
  }

  function RequestFor(lower: nat, id: string, ip: string, k: nat, node: DomainInfo): Request {
    Request(lower, k, Address(node.addrIp, node.sipPort), FromHeader(id, ip), ExpiresHeader(node.expires))
  }

  /** What one tick sends from node `k` on: a request for every node that is not registered, unless sending fails. */
  function Sending(lower: nat, id: string, ip: string, nodes: seq<DomainInfo>, ok: seq<bool>, k: nat): seq<Request>
    requires k <= |nodes| == |ok|
    decreases |nodes| - k
  {
    if k == |nodes| then []
    else (if !nodes[k].registered && ok[k] then [RequestFor(lower, id, ip, k, nodes[k])] else []) +
         Sending(lower, id, ip, nodes, ok, k + 1)
  }

  /** A tick sends to exactly the nodes that are not registered and whose send succeeds. */
  lemma {:induction false} SentIffUnregistered(lower: nat, id: string, ip: string, nodes: seq<DomainInfo>,
    ok: seq<bool>, k: nat, r: Request)
    requires k <= |nodes| == |ok|
    ensures r in Sending(lower, id, ip, nodes, ok, k) <==>
            k <= r.node < |nodes| && !nodes[r.node].registered && ok[r.node] &&
              r == RequestFor(lower, id, ip, r.node, nodes[r.node])
    decreases |nodes| - k
  {
    hide RequestFor;
    if k < |nodes| {
      RequestNames(lower, id, ip, k, nodes[k]);
      SentIffUnregistered(lower, id, ip, nodes, ok, k + 1, r);
    }
  }

  /** The Expires header is left out exactly for an expiry of -1. */
  lemma RequestNames(lower: nat, id: string, ip: string, k: nat, node: DomainInfo)
    ensures var r := RequestFor(lower, id, ip, k, node);
            && r.lower == lower && r.node == k && r.dest == Address(node.addrIp, node.sipPort)
            && r.expires == ExpiresHeader(node.expires) && r.from == FromHeader(id, ip)
            && if node.expires == -1 then r.expires == None else r.expires == Some(node.expires)
  {
  }

  lemma SendingStep(lower: nat, id: string, ip: string, nodes: seq<DomainInfo>, ok: seq<bool>, k: nat,
    sent: seq<Request>)
    requires k < |nodes| == |ok|
    ensures var one := if !nodes[k].registered && ok[k] then [RequestFor(lower, id, ip, k, nodes[k])] else [];
            sent + Sending(lower, id, ip, nodes, ok, k) == sent + one + Sending(lower, id, ip, nodes, ok, k + 1)
  {
    hide RequestFor;
    if nodes[k].registered || !ok[k] {
      assert [] + Sending(lower, id, ip, nodes, ok, k + 1) == Sending(lower, id, ip, nodes, ok, k + 1);
      assert sent + [] == sent;
    }
  }

  class LowerGlobalCtl {
    const lower: nat
    const id: string
    const ip: string
    var supDomainInfoList: seq<DomainInfo>

    constructor (lower: nat, id: string, ip: string)
      ensures this.lower == lower && this.id == id && this.ip == ip && supDomainInfoList == []
    {
      this.lower, this.id, this.ip, supDomainInfoList := lower, id, ip, [];
    }

    method Init(upNodeInfoList: seq<SipLocalConfig.NodeInfo>)
      modifies this
      ensures supDomainInfoList == old(supDomainInfoList) + FromSupNodes(upNodeInfoList)
    {
      var info := NEW_DOMAIN;
      var iter := 0;
      while iter < |upNodeInfoList|
        invariant 0 <= iter <= |upNodeInfoList|
        invariant !info.registered && !info.isAuth
        invariant supDomainInfoList == old(supDomainInfoList) + FromSupNodes(upNodeInfoList[..iter])
      {
        var node := upNodeInfoList[iter];
        info := info.(sipId := node.id);
        info := info.(addrIp := node.ip);
        info := info.(sipPort := node.port);
        info := info.(protocal := node.poto);
        info := info.(expires := node.expires);
        supDomainInfoList := supDomainInfoList + [info];
        iter := iter + 1;
      }
      assert upNodeInfoList[..iter] == upNodeInfoList;
    }

    /** Builds and sends one REGISTER, when the stack is ready to. */
    method GbRegister(k: nat, ok: bool) returns (sent: seq<Request>)
      requires k < |supDomainInfoList|
      ensures sent == if ok then [RequestFor(lower, id, ip, k, supDomainInfoList[k])] else []
    {
      var msg := new SipMessage();
      msg.SetFrom(id, ip);
      var node := supDomainInfoList[k];
      if !ok { return []; }
      var expires := if node.expires != NOT_SPECIFIED then Some(node.expires) else None;
      return [Request(lower, k, Address(node.addrIp, node.sipPort), msg.fromHeader, expires)];
    }

    /** One timer tick; `ok` says for which nodes sending succeeds. */
    method RegisterProc(ok: seq<bool>) returns (sent: seq<Request>)
      requires |ok| == |supDomainInfoList|
      ensures sent == Sending(lower, id, ip, supDomainInfoList, ok, 0)
    {
      hide Sending, RequestFor;
      sent := [];
      var iter := 0;
      assert [] + Sending(lower, id, ip, supDomainInfoList, ok, 0) == Sending(lower, id, ip, supDomainInfoList, ok, 0);
      while iter < |supDomainInfoList|
        invariant 0 <= iter <= |supDomainInfoList|
        invariant Sending(lower, id, ip, supDomainInfoList, ok, 0) ==
          sent + Sending(lower, id, ip, supDomainInfoList, ok, iter)
      {
        SendingStep(lower, id, ip, supDomainInfoList, ok, iter, sent);
        assert sent + [] == sent;
        if !supDomainInfoList[iter].registered {
          var one := GbRegister(iter, ok[iter]);
          sent := sent + one;
        }
        iter := iter + 1;
      }
      NothingLeftToSend(lower, id, ip, supDomainInfoList, ok);
      assert sent + [] == sent;
    }

    /** The callback: only the code 200 marks a node as registered. */
    method ClientCb(k: nat, code: int)
      requires k < |supDomainInfoList|
      modifies this
      ensures supDomainInfoList == AfterCallback(old(supDomainInfoList), k, code)
      ensures |supDomainInfoList| == |old(supDomainInfoList)|
      ensures forall i :: 0 <= i < |supDomainInfoList| && (i != k || code != SIP_OK) ==>
        supDomainInfoList[i] == old(supDomainInfoList)[i]
      ensures code == SIP_OK ==> supDomainInfoList[k].registered &&
                                 supDomainInfoList[k].(registered := old(supDomainInfoList)[k].registered) ==
                                   old(supDomainInfoList)[k]
    {
      if code == 200 {
        supDomainInfoList := supDomainInfoList[k := supDomainInfoList[k].(registered := true)];
      }
    }
  }

  lemma NothingLeftToSend(lower: nat, id: string, ip: string, nodes: seq<DomainInfo>, ok: seq<bool>)
    requires |nodes| == |ok|
    ensures Sending(lower, id, ip, nodes, ok, |nodes|) == []
  {
  }

  function AfterCallback(nodes: seq<DomainInfo>, k: nat, code: int): seq<DomainInfo>
    requires k < |nodes|
  {
    if code == SIP_OK then nodes[k := nodes[k].(registered := true)] else nodes
  }
}
