/** Links between output and input gates: each side keeps a list of its peers. */
module Gates {

  /** `std::remove` followed by `erase` */
  function RemoveAll<T(==)>(s: seq<T>, x: T): seq<T> {
    if s == [] then [] else (if s[0] == x then [] else [s[0]]) + RemoveAll(s[1..], x)
  }

  lemma {:induction false} RemoveAllCounts<T>(s: seq<T>, x: T)
    ensures multiset(RemoveAll(s, x)) == multiset(s)[x := 0]
    decreases |s|
  {
    if s != [] {
      RemoveAllCounts(s[1..], x);
      assert s == [s[0]] + s[1..];
    }
  }

  lemma RemoveAllMembers<T>(s: seq<T>, x: T, y: T)
    ensures multiset(RemoveAll(s, x))[y] == if y == x then 0 else multiset(s)[y]
    ensures y in RemoveAll(s, x) <==> y in s && y != x
  {
    RemoveAllCounts(s, x);
    assert y in s <==> multiset(s)[y] > 0;
    assert y in RemoveAll(s, x) <==> multiset(RemoveAll(s, x))[y] > 0;
  }

  /** `index` lists the places in `s` of the elements other than `x`, from left to right, and `r` those elements. */
  ghost predicate Keeps<T>(s: seq<T>, x: T, r: seq<T>, index: seq<nat>) {
    && |index| == |r|
    && (forall i :: 0 <= i < |index| ==> index[i] < |s| && s[index[i]] == r[i] != x)
    && (forall i, j :: 0 <= i < j < |index| ==> index[i] < index[j])
    && (forall k :: 0 <= k < |s| && s[k] != x ==> k in index)
  }

  function Shifted(index: seq<nat>): (r: seq<nat>)
    ensures |r| == |index| && forall i :: 0 <= i < |r| ==> r[i] == index[i] + 1
  {
    seq(|index|, i requires 0 <= i < |index| => index[i] + 1)
  }

  lemma KeepsShifted<T>(head: T, tail: seq<T>, x: T, r: seq<T>, index: seq<nat>)
    requires Keeps(tail, x, r, index) && head == x
    ensures Keeps([head] + tail, x, r, Shifted(index))
  {
    forall k | 0 <= k < |[head] + tail| && ([head] + tail)[k] != x ensures k in Shifted(index) {
      assert tail[k - 1] != x;
      var i :| 0 <= i < |index| && index[i] == k - 1;
      assert Shifted(index)[i] == k;
    }
  }

  lemma KeepsHead<T>(head: T, tail: seq<T>, x: T, r: seq<T>, index: seq<nat>)
    requires Keeps(tail, x, r, index) && head != x
    ensures Keeps([head] + tail, x, [head] + r, [0] + Shifted(index))
  {
    var list, index' := [head] + tail, [0] + Shifted(index);
    forall i | 0 <= i < |index'| ensures index'[i] < |list| && list[index'[i]] == ([head] + r)[i] != x {
      if i > 0 {
        assert index'[i] == index[i - 1] + 1;
      }
    }
    forall i, j | 0 <= i < j < |index'| ensures index'[i] < index'[j] {
      assert index'[j] == index[j - 1] + 1;
      if i > 0 {
        assert index'[i] == index[i - 1] + 1;
      }
    }
    forall k | 0 <= k < |list| && list[k] != x ensures k in index' {
      if k == 0 {
        assert index'[0] == 0;
      } else {
        assert tail[k - 1] != x;
        var i :| 0 <= i < |index| && index[i] == k - 1;
        assert index'[i + 1] == k;
      }
    }
  }

  /** Removal keeps exactly the other elements, in their order. */
  lemma {:induction false} RemoveAllKeepsOrder<T>(s: seq<T>, x: T) returns (index: seq<nat>)
    ensures Keeps(s, x, RemoveAll(s, x), index)
    decreases |s|
  {
    if s == [] {
      index := [];
    } else {
      var rest := RemoveAllKeepsOrder(s[1..], x);
      assert [s[0]] + s[1..] == s;
      if s[0] == x {
        KeepsShifted(s[0], s[1..], x, RemoveAll(s[1..], x), rest);
        index := Shifted(rest);
        assert [] + RemoveAll(s[1..], x) == RemoveAll(s[1..], x);
      } else {
        KeepsHead(s[0], s[1..], x, RemoveAll(s[1..], x), rest);
        index := [0] + Shifted(rest);
      }
    }
  }

  predicate Distinct<T(==)>(s: seq<T>) {
    forall i, j :: 0 <= i < j < |s| ==> s[i] != s[j]
  }

  lemma {:induction false} RemoveAbsent<T>(s: seq<T>, x: T)
    requires x !in s
    ensures RemoveAll(s, x) == s
    decreases |s|
  {
    if s != [] {
      RemoveAbsent(s[1..], x);
    }
  }

  class OutGate<M> {
    var peers: seq<InGate<M>>

    constructor ()
      ensures peers == []
    {
      peers := [];
    }

    method Connect(g: InGate<M>)
      modifies this
      ensures peers == old(peers) + [g]
    {
      peers := peers + [g];
    }

    /** Fails, as the program throws, on a gate that is not a peer. */
    method Disconnect(g: InGate<M>) returns (ok: bool)
      modifies this
      ensures ok <==> g in old(peers)
      ensures peers == RemoveAll(old(peers), g)
    {
      ok := g in peers;
      if ok {
        peers := RemoveAll(peers, g);
      } else {
        RemoveAbsent(peers, g);
      }
    }

    /**
     Takes this gate off the lists of its peers, in order; `at` peers are visited. It fails exactly when
     some peer is linked more than once: the peers before the repeated one have then dropped this gate,
     while this gate still lists all of them.
     */
    method DisconnectAll() returns (ok: bool, ghost at: nat)
      requires forall g: InGate<M> :: g in peers ==> this in g.peers
      modifies this, peers
      ensures ok <==> Distinct(old(peers))
      ensures at <= |old(peers)| && (ok <==> at == |old(peers)|)
      ensures !ok ==> Distinct(old(peers)[..at]) && old(peers)[at] in old(peers)[..at]
      ensures peers == if ok then [] else old(peers)
      ensures forall g: InGate<M> :: g in old(peers) ==>
                g.peers == if g in old(peers)[..at] then RemoveAll(old(g.peers), this) else old(g.peers)
      ensures forall g: InGate<M> :: g in old(peers) ==> (this in g.peers <==> g !in old(peers)[..at])
    {
      for i := 0 to |peers|
        invariant peers == old(peers) && Distinct(peers[..i])
        invariant forall g: InGate<M> :: g in peers ==> (this in g.peers <==> g !in peers[..i])
        invariant forall g: InGate<M> :: g in peers ==>
                    g.peers == if g in peers[..i] then RemoveAll(old(g.peers), this) else old(g.peers)
      {
        assert peers[..i + 1] == peers[..i] + [peers[i]];
        var found := DropFrom(peers[i]);
        if !found {
          return false, i;
        }
      }
      assert peers[..|peers|] == peers;
      ok, at := true, |peers|;
      peers := [];
    }

    /** `g->disconnect(this)` */
    method DropFrom(g: InGate<M>) returns (found: bool)
      modifies g`peers
      ensures found <==> this in old(g.peers)
      ensures this !in g.peers && g.peers == if found then RemoveAll(old(g.peers), this) else old(g.peers)
    {
      RemoveAllMembers(g.peers, this, this);
      if this !in g.peers {
        RemoveAbsent(g.peers, this);
      }
      found := g.Disconnect(this);
    }

    /** Delivers to every peer in list order; a gate linked twice receives the message twice. */
    method Deliver(m: M)
      modifies peers
      ensures peers == old(peers)
      ensures forall g: InGate<M> :: g in old(peers) ==>
                g.peers == old(g.peers) && |g.inbox| == |old(g.inbox)| + multiset(peers)[g]
                && old(g.inbox) <= g.inbox && forall k :: |old(g.inbox)| <= k < |g.inbox| ==> g.inbox[k] == m
    {
      for i := 0 to |peers|
        invariant peers == old(peers)
        invariant forall g: InGate<M> :: g in peers ==>
                    g.peers == old(g.peers) && |g.inbox| == |old(g.inbox)| + multiset(peers[..i])[g]
                    && old(g.inbox) <= g.inbox && forall k :: |old(g.inbox)| <= k < |g.inbox| ==> g.inbox[k] == m
      {
        assert peers[..i + 1] == peers[..i] + [peers[i]];
        peers[i].Receive(m);
      }
      assert peers[..|peers|] == peers;
    }
  }

  class InGate<M> {
    var peers: seq<OutGate<M>>
    var inbox: seq<M>            // what the owner of the gate was handed

    constructor ()
      ensures peers == [] && inbox == []
    {
      peers, inbox := [], [];
    }

    method Receive(m: M)
      modifies this`inbox
      ensures inbox == old(inbox) + [m]
    {
      inbox := inbox + [m];
    }

    method Connect(g: OutGate<M>)
      modifies this`peers
      ensures peers == old(peers) + [g]
    {
      peers := peers + [g];
    }

    method Disconnect(g: OutGate<M>) returns (ok: bool)
      modifies this`peers
      ensures ok <==> g in old(peers)
      ensures peers == RemoveAll(old(peers), g)
    {
      ok := g in peers;
      if ok {
        peers := RemoveAll(peers, g);
      } else {
        RemoveAbsent(peers, g);
      }
    }
  }

  class Composition<M> {
    const outs: set<OutGate<M>>
    const ins: set<InGate<M>>

    /** Peers are gates of the composition. */
    ghost predicate Closed()
      reads this, outs, ins
    {
      && (forall o: OutGate<M> :: o in outs ==> forall g: InGate<M> :: g in o.peers ==> g in ins)
      && (forall g: InGate<M> :: g in ins ==> forall o: OutGate<M> :: o in g.peers ==> o in outs)
    }

    /** Both ends of every pair of gates record the same number of links. */
    ghost predicate Symmetric()
      reads this, outs, ins
    {
      forall o: OutGate<M>, g: InGate<M> :: o in outs && g in ins ==> multiset(o.peers)[g] == multiset(g.peers)[o]
    }

    constructor (outs: set<OutGate<M>>, ins: set<InGate<M>>)
      requires forall o: OutGate<M> :: o in outs ==> o.peers == []
      requires forall g: InGate<M> :: g in ins ==> g.peers == []
      ensures Closed() && Symmetric() && this.outs == outs && this.ins == ins
    {
      this.outs, this.ins := outs, ins;
    }

    method CreateLink(from: OutGate<M>, to: InGate<M>)
      requires Closed() && Symmetric() && from in outs && to in ins
      modifies from, to`peers
      ensures Closed() && Symmetric()
      ensures from.peers == old(from.peers) + [to] && to.peers == old(to.peers) + [from]
    {
      to.Connect(from);
      from.Connect(to);
    }

    /** Removes every link between the two gates and no other; fails exactly when there is none. */
    method DeleteLink(from: OutGate<M>, to: InGate<M>) returns (ok: bool)
      requires Closed() && Symmetric() && from in outs && to in ins
      modifies from, to`peers
      ensures Closed() && Symmetric()
      ensures ok <==> old(to in from.peers)
      ensures from.peers == RemoveAll(old(from.peers), to) && to.peers == RemoveAll(old(to.peers), from)
    {
      ghost var fp, tp := from.peers, to.peers;
      SameEnds(fp, tp, from, to);
      ok := to.Disconnect(from);
      if ok {
        ok := from.Disconnect(to);
      } else {
        RemoveAbsent(fp, to);
      }
      forall o: OutGate<M>, g: InGate<M> | o in outs && g in ins ensures multiset(o.peers)[g] == multiset(g.peers)[o] {
        assert old(multiset(o.peers)[g] == multiset(g.peers)[o]);
        RemoveAllMembers(fp, to, g);
        RemoveAllMembers(tp, from, o);
      }
      forall g: InGate<M> | g in from.peers ensures g in ins {
        RemoveAllMembers(fp, to, g);
      }
      forall o: OutGate<M> | o in to.peers ensures o in outs {
        RemoveAllMembers(tp, from, o);
      }
    }
  }

  lemma SameEnds<O, I>(fp: seq<I>, tp: seq<O>, o: O, g: I)
    requires multiset(fp)[g] == multiset(tp)[o]
    ensures g in fp <==> o in tp
  {
    assert g in fp <==> g in multiset(fp);
    assert o in tp <==> o in multiset(tp);
  }
}
