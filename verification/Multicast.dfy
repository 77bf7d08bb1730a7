// MulticastApp (net_lab1/.../MulticastApp.java): the checker's tick and the responder's packets,
// each atomic, over one list of members.
module Multicast {
  import opened Membership

  class ClientInfo {
    const inetAddress: Address
    var timeoutCounter: nat

    constructor (a: Address)
      ensures inetAddress == a && timeoutCounter == 0
    {
      inetAddress, timeoutCounter := a, 0;
    }
  }

  ghost function Peers(l: seq<ClientInfo>): (p: seq<Peer>)
    reads l
    ensures |p| == |l|
    ensures forall i :: 0 <= i < |l| ==> p[i] == Peer(l[i].inetAddress, l[i].timeoutCounter)
  {
    if l == [] then [] else [Peer(l[0].inetAddress, l[0].timeoutCounter)] + Peers(l[1..])
  }

  class MulticastApp {
    var clientInfoList: seq<ClientInfo>
    ghost var history: seq<Event>

    /** The list is the one its history leads to; no address is listed twice. */
    ghost predicate Valid()
      reads this, clientInfoList
    {
      Peers(clientInfoList) == Run(history) && Distinct(Peers(clientInfoList))
    }

    constructor ()
      ensures Valid() && history == []
    {
      clientInfoList, history := [], [];
    }

    /** indexOf by address; -1 if there is none. */
    method IndexOf(a: Address) returns (index: int)
      ensures -1 <= index < |clientInfoList|
      ensures index >= 0 ==> clientInfoList[index].inetAddress == a
      ensures forall i :: 0 <= i < (if index < 0 then |clientInfoList| else index) ==>
                clientInfoList[i].inetAddress != a
      ensures index >= 0 <==> Listed(Peers(clientInfoList), a)
    {
      hide Peers;
      ghost var peers := Peers(clientInfoList);
      index := 0;
      while index < |clientInfoList|
        invariant 0 <= index <= |clientInfoList|
        invariant forall i :: 0 <= i < index ==> clientInfoList[i].inetAddress != a
      {
        if clientInfoList[index].inetAddress == a {
          assert peers[index].address == a;
          return;
        }
        index := index + 1;
      }
      index := -1;
    }

    /** remove: takes the first equal element out of the list. */
    method Remove(a: Address)
      modifies this`clientInfoList
      ensures Peers(clientInfoList) == Without(old(Peers(clientInfoList)), a)
      ensures forall c <- clientInfoList :: c in old(clientInfoList)
    {
      hide Peers, Without;
      var i := IndexOf(a);
      ghost var before := Peers(clientInfoList);
      if i >= 0 {
        clientInfoList := clientInfoList[..i] + clientInfoList[i + 1..];
        WithoutAt(before, a, i);
        assert Peers(clientInfoList) == before[..i] + before[i + 1..];
      } else {
        WithoutAt(before, a, |before|);
      }
    }

    method IncrementAllTimeoutCounters()
      requires Distinct(Peers(clientInfoList))
      modifies clientInfoList
      ensures Peers(clientInfoList) == Increment(old(Peers(clientInfoList)))
    {
      hide Peers, Increment;
      ghost var before := Peers(clientInfoList);
      var i := 0;
      while i < |clientInfoList|
        invariant i <= |clientInfoList|
        invariant forall j :: 0 <= j < i ==> clientInfoList[j].timeoutCounter == before[j].counter + 1
        invariant forall j :: i <= j < |clientInfoList| ==> clientInfoList[j].timeoutCounter == before[j].counter
      {
        assert forall j :: 0 <= j < |clientInfoList| && j != i ==> before[j].address != before[i].address;
        clientInfoList[i].timeoutCounter := clientInfoList[i].timeoutCounter + 1;
        i := i + 1;
      }
    }

    /** The members whose counter has reached the timeout, in the order of the list. */
    method GetListOfTimeoutedClients() returns (timeouted: seq<ClientInfo>)
      ensures Peers(timeouted) == Expired(Peers(clientInfoList))
    {
      hide Peers, Expired;
      ghost var peers := Peers(clientInfoList);
      timeouted := [];
      ExpiredNone();
      var i := 0;
      while i < |clientInfoList|
        invariant i <= |clientInfoList|
        invariant Peers(timeouted) == Expired(peers[..i])
      {
        assert peers[..i + 1] == peers[..i] + [peers[i]];
        ExpiredLast(peers[..i], peers[i]);
        ghost var earlier := Peers(timeouted);
        if clientInfoList[i].timeoutCounter >= TIMEOUT {
          timeouted := timeouted + [clientInfoList[i]];
          assert Peers(timeouted) == earlier + [peers[i]];
        }
        i := i + 1;
      }
      assert peers[..i] == peers;
    }

    /** Each of them is looked up, which never fails, and removed. */
    method RemoveAll(timeouted: seq<ClientInfo>)
      requires Distinct(Peers(clientInfoList)) && Distinct(Peers(timeouted))
      requires forall c <- timeouted :: Listed(Peers(clientInfoList), c.inetAddress)
      modifies this`clientInfoList
      ensures Peers(clientInfoList) == Except(old(Peers(clientInfoList)), AddressesOf(timeouted))
      ensures forall c <- clientInfoList :: c in old(clientInfoList)
    {
      hide Peers, Except, Without, Listed;
      ghost var before := Peers(clientInfoList);
      ghost var leaving := Peers(timeouted);
      ExceptNone(before);
      assert AddressesOf(timeouted[..0]) == {};
      var i := 0;
      while i < |timeouted|
        invariant i <= |timeouted|
        invariant Peers(clientInfoList) == Except(before, AddressesOf(timeouted[..i]))
        invariant forall c <- clientInfoList :: c in old(clientInfoList)
      {
        var timeoutedClient := timeouted[i];
        assert forall j :: 0 <= j < i ==> leaving[j].address != leaving[i].address;
        assert timeoutedClient.inetAddress !in AddressesOf(timeouted[..i]);
        ExceptListed(before, AddressesOf(timeouted[..i]), timeoutedClient.inetAddress);
        var index := IndexOf(timeoutedClient.inetAddress);
        var existingSenderInfo := clientInfoList[index];
        WithoutOfExcept(before, AddressesOf(timeouted[..i]), timeoutedClient.inetAddress);
        Remove(existingSenderInfo.inetAddress);
        assert timeouted[..i + 1] == timeouted[..i] + [timeouted[i]];
        assert AddressesOf(timeouted[..i + 1]) == AddressesOf(timeouted[..i]) + {timeouted[i].inetAddress};
        i := i + 1;
      }
      assert timeouted[..i] == timeouted;
    }

    /** The tick of the checker: counters go up, then those that reached the timeout are removed. */
    method CheckTick()
      requires Valid()
      modifies this, clientInfoList
      ensures Valid() && history == old(history) + [Tick]
      ensures forall p <- Peers(clientInfoList) :: p.counter < 10
    {
      hide Peers, Increment, Alive, Except, AddressesOf, Expired, Listed, Run;
      ghost var before := Peers(clientInfoList);
      IncrementAllTimeoutCounters();
      ghost var counted := Peers(clientInfoList);
      var timeouted := GetListOfTimeoutedClients();
      ExpiredDistinct(counted);
      ExpiredListed(counted, timeouted);
      RemoveAll(timeouted);
      ExceptExpired(counted, AddressesOf(timeouted));
      StepDistinct(before, Tick);
      RunAppend(history, Tick);
      history := history + [Tick];
      forall p | p in Peers(clientInfoList) ensures p.counter < TIMEOUT {
        AliveMembers(counted, p);
      }
    }

    /** The responder's packets; the result says whether an OK is sent back. */
    method HandlePacket(e: Event) returns (answersOk: bool)
      requires Valid() && !e.Tick?
      modifies this, clientInfoList
      ensures Valid() && history == old(history) + [e]
      ensures answersOk <==> e.Hello? || e.Check?
    {
      hide Peers, Run, Listed, Reset, Without;
      StepDistinct(Peers(clientInfoList), e);
      RunAppend(history, e);
      answersOk := false;
      match e {
        case Hello(a) =>
          var i := IndexOf(a);
          if i < 0 { Add(a); }
          answersOk := true;
        case Check(_) => answersOk := true;
        case Okay(a) => Refresh(a);
        case Bye(a) => Remove(a);
        case Other(_) =>
      }
      history := history + [e];
    }

    /** An OK: a new member is added, and the member's counter starts again. */
    method Refresh(a: Address)
      requires Distinct(Peers(clientInfoList))
      modifies this`clientInfoList, clientInfoList
      ensures Peers(clientInfoList) == Step(old(Peers(clientInfoList)), Okay(a))
    {
      hide Peers, Reset, Listed;
      ghost var before := Peers(clientInfoList);
      var i := IndexOf(a);
      if i == -1 {
        Add(a);
        clientInfoList[|clientInfoList| - 1].timeoutCounter := 0;
        assert Peers(clientInfoList) == before + [Peer(a, 0)];
      } else {
        ResetAt(before, a, i);
        assert forall j :: 0 <= j < |clientInfoList| && j != i ==> before[j].address != before[i].address;
        clientInfoList[i].timeoutCounter := 0;
        assert Peers(clientInfoList) == before[i := Peer(a, 0)];
      }
    }

    method Add(a: Address)
      modifies this`clientInfoList
      ensures |clientInfoList| == |old(clientInfoList)| + 1
      ensures clientInfoList[..|old(clientInfoList)|] == old(clientInfoList)
      ensures fresh(clientInfoList[|old(clientInfoList)|])
      ensures Peers(clientInfoList) == old(Peers(clientInfoList)) + [Peer(a, 0)]
    {
      hide Peers;
      ghost var before := Peers(clientInfoList);
      var c := new ClientInfo(a);
      clientInfoList := clientInfoList + [c];
      assert Peers(clientInfoList) == before + [Peer(a, 0)];
    }
  }

  function AddressesOf(l: seq<ClientInfo>): set<Address> {
    set c | c in l :: c.inetAddress
  }

  /** The peers whose counter has reached the timeout, in order. */
  function Expired(l: seq<Peer>): seq<Peer> {
    if l == [] then []
    else if l[0].counter >= TIMEOUT then [l[0]] + Expired(l[1..])
    else Expired(l[1..])
  }

  /** The peers whose address is not in the set, in order. */
  function Except(l: seq<Peer>, s: set<Address>): seq<Peer> {
    if l == [] then []
    else if l[0].address in s then Except(l[1..], s)
    else [l[0]] + Except(l[1..], s)
  }

  lemma ExpiredNone()
    ensures Expired([]) == []
  {
  }

  lemma {:induction false} ExpiredLast(l: seq<Peer>, p: Peer)
    ensures Expired(l + [p]) == Expired(l) + if p.counter >= TIMEOUT then [p] else []
  {
    if l == [] {
      assert [p][1..] == [] && [] + [p] == [p];
    } else {
      ExpiredLast(l[1..], p);
      assert (l + [p])[1..] == l[1..] + [p];
    }
  }

  lemma {:induction false} ExpiredMembers(l: seq<Peer>, p: Peer)
    ensures p in Expired(l) <==> p in l && p.counter >= TIMEOUT
  {
    if l != [] {
      ExpiredMembers(l[1..], p);
    }
  }

  lemma {:induction false} ExpiredDistinct(l: seq<Peer>)
    requires Distinct(l)
    ensures Distinct(Expired(l))
  {
    if l != [] {
      var rest := Expired(l[1..]);
      ExpiredDistinct(l[1..]);
      forall i | 0 <= i < |rest| ensures rest[i].address != l[0].address {
        ExpiredMembers(l[1..], rest[i]);
        assert rest[i] in l[1..];
      }
    }
  }

  /** The expired members are listed, and an address is theirs exactly when its counter is up. */
  lemma ExpiredListed(l: seq<Peer>, timeouted: seq<ClientInfo>)
    requires Distinct(l) && Peers(timeouted) == Expired(l)
    ensures forall c <- timeouted :: Listed(l, c.inetAddress)
    ensures forall i :: 0 <= i < |l| ==> (l[i].address in AddressesOf(timeouted) <==> l[i].counter >= TIMEOUT)
  {
    hide Peers, Expired;
    var out := Peers(timeouted);
    forall c | c in timeouted ensures exists p <- l :: p.address == c.inetAddress && p.counter >= TIMEOUT {
      var j :| 0 <= j < |timeouted| && timeouted[j] == c;
      ExpiredMembers(l, out[j]);
      assert out[j] in l;
    }
    forall i | 0 <= i < |l| && l[i].counter >= TIMEOUT ensures l[i].address in AddressesOf(timeouted) {
      ExpiredMembers(l, l[i]);
      var j :| 0 <= j < |out| && out[j] == l[i];
      assert timeouted[j] in timeouted;
    }
  }

  lemma ExceptListed(l: seq<Peer>, s: set<Address>, a: Address)
    requires Listed(l, a) && a !in s
    ensures Listed(Except(l, s), a)
  {
    var i :| 0 <= i < |l| && l[i].address == a;
    ExceptMembers(l, s, l[i]);
  }

  lemma {:induction false} ExceptNone(l: seq<Peer>)
    ensures Except(l, {}) == l
  {
    if l != [] {
      ExceptNone(l[1..]);
    }
  }

  lemma {:induction false} ExceptMembers(l: seq<Peer>, s: set<Address>, p: Peer)
    ensures p in Except(l, s) <==> p in l && p.address !in s
  {
    if l != [] {
      ExceptMembers(l[1..], s, p);
    }
  }

  /** Removing one more address from a list of distinct ones. */
  lemma {:induction false} WithoutOfExcept(l: seq<Peer>, s: set<Address>, a: Address)
    requires Distinct(l)
    ensures Without(Except(l, s), a) == Except(l, s + {a})
  {
    if l != [] {
      WithoutOfExcept(l[1..], s, a);
      if l[0].address == a {
        ExceptWithAbsent(l[1..], s, a);
      }
    }
  }

  lemma {:induction false} ExceptWithAbsent(l: seq<Peer>, s: set<Address>, a: Address)
    requires forall i :: 0 <= i < |l| ==> l[i].address != a
    ensures Except(l, s + {a}) == Except(l, s)
  {
    if l != [] {
      ExceptWithAbsent(l[1..], s, a);
    }
  }

  /** Taking out the expired addresses leaves exactly the peers that are alive. */
  lemma {:induction false} ExceptExpired(l: seq<Peer>, s: set<Address>)
    requires Distinct(l)
    requires forall i :: 0 <= i < |l| ==> (l[i].address in s <==> l[i].counter >= TIMEOUT)
    ensures Except(l, s) == Alive(l)
  {
    if l != [] {
      ExceptExpired(l[1..], s);
    }
  }

  lemma {:induction false} ResetAt(l: seq<Peer>, a: Address, i: nat)
    requires i <= |l| && (i < |l| ==> l[i].address == a)
    requires forall j :: 0 <= j < i ==> l[j].address != a
    ensures i < |l| ==> Reset(l, a) == l[i := Peer(a, 0)]
  {
    if l != [] && i > 0 {
      ResetAt(l[1..], a, i - 1);
    }
  }

  lemma {:induction false} WithoutAt(l: seq<Peer>, a: Address, i: nat)
    requires i <= |l| && (i < |l| ==> l[i].address == a)
    requires forall j :: 0 <= j < i ==> l[j].address != a
    ensures Without(l, a) == if i < |l| then l[..i] + l[i + 1..] else l
  {
    if l != [] && i > 0 {
      WithoutAt(l[1..], a, i - 1);
    }
  }
}
