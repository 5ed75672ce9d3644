/** The sorted, doubly linked list of timers, refined to the sequence of its nodes. */
module TimerList {
  import opened Common

  // ------------------------------------------------------------ sorted sequences

  predicate Sorted(keys: seq<int>) {
    forall i, j :: 0 <= i < j < |keys| ==> keys[i] <= keys[j]
  }

  /** How many keys at the front are not greater than e: the place of a stable insertion, and the
      number of timers that have expired at time e. */
  function Place(keys: seq<int>, e: int): (k: nat)
    ensures k <= |keys|
    ensures forall i :: 0 <= i < k ==> keys[i] <= e
    ensures k < |keys| ==> e < keys[k]
  {
    if keys == [] || e < keys[0] then 0 else 1 + Place(keys[1..], e)
  }

  function Insert<T>(s: seq<T>, k: nat, x: T): (r: seq<T>)
    requires k <= |s|
    ensures |r| == |s| + 1
    ensures forall j {:trigger r[j]} :: 0 <= j <= |s| ==> r[j] == if j < k then s[j] else if j == k then x else s[j - 1]
  {
    s[..k] + [x] + s[k..]
  }

  function Remove<T>(s: seq<T>, k: nat): (r: seq<T>)
    requires k < |s|
    ensures |r| == |s| - 1
    ensures forall j {:trigger r[j]} :: 0 <= j < |s| - 1 ==> r[j] == if j < k then s[j] else s[j + 1]
  {
    s[..k] + s[k + 1..]
  }

  lemma RemoveFirst<T>(s: seq<T>)
    requires s != []
    ensures Remove(s, 0) == s[1..]
  {
  }

  lemma InsertAt<T>(s: seq<T>, k: nat, x: T)
    requires k <= |s|
    ensures Insert(s, k, x)[k] == x
  {
  }

  lemma {:induction false} PlaceIs(keys: seq<int>, e: int, k: nat)
    requires k <= |keys|
    requires forall i :: 0 <= i < k ==> keys[i] <= e
    requires k < |keys| ==> e < keys[k]
    ensures Place(keys, e) == k
  {
    if k > 0 {
      PlaceIs(keys[1..], e, k - 1);
    }
  }

  lemma {:induction false} InsertSorted(keys: seq<int>, e: int)
    requires Sorted(keys)
    ensures Sorted(Insert(keys, Place(keys, e), e))
    ensures forall i :: Place(keys, e) <= i < |keys| ==> e < keys[i]
  {
  }

  /** The timers in the list, by what they are keyed on. */
  class UtilTimer {
    var expire: int
    var prev: UtilTimer?
    var next: UtilTimer?
    const userData: int

    constructor (data: int, time: int)
      ensures userData == data && expire == time && prev == null && next == null
    {
      userData, expire, prev, next := data, time, null, null;
    }
  }

  function NextOf(nodes: seq<UtilTimer>, i: nat): UtilTimer?
    requires i < |nodes|
  {
    if i + 1 < |nodes| then nodes[i + 1] else null
  }

  function PrevOf(nodes: seq<UtilTimer>, i: nat): UtilTimer?
    requires i < |nodes|
  {
    if i > 0 then nodes[i - 1] else null
  }

  /** Node i points to its neighbours. */
  ghost predicate LinkedAt(nodes: seq<UtilTimer>, i: nat)
    requires i < |nodes|
    reads nodes
  {
    nodes[i].next == NextOf(nodes, i) && nodes[i].prev == PrevOf(nodes, i)
  }

  /** The nodes, in order, are a doubly linked chain. */
  ghost predicate Chain(nodes: seq<UtilTimer>)
    reads nodes
  {
    Distinct(nodes) && forall i {:trigger LinkedAt(nodes, i)} :: 0 <= i < |nodes| ==> LinkedAt(nodes, i)
  }

  /** The keys are what the nodes were sorted by. */
  ghost predicate KeyedBy(nodes: seq<UtilTimer>, keys: seq<int>)
    reads nodes
  {
    && |keys| == |nodes|
    && forall i {:trigger keys[i]} {:trigger nodes[i]} :: 0 <= i < |nodes| ==> nodes[i].expire == keys[i]
  }

  lemma DistinctAt<T>(s: seq<T>, i: nat, j: nat)
    requires Distinct(s) && i < |s| && j < |s|
    ensures s[i] == s[j] <==> i == j
  {
  }

  lemma DistinctInsert<T>(s: seq<T>, k: nat, x: T)
    requires Distinct(s) && x !in s && k <= |s|
    ensures Distinct(Insert(s, k, x))
  {
  }

  /** Node j of a chain into which x is being put at place k. */
  ghost predicate RewiredAt(was: seq<UtilTimer>, k: nat, x: UtilTimer, j: nat)
    requires j < |was|
    reads was
  {
    && was[j].next == (if j + 1 == k then x else NextOf(was, j))
    && was[j].prev == (if j == k then x else PrevOf(was, j))
  }

  ghost predicate Rewired(was: seq<UtilTimer>, k: nat, x: UtilTimer)
    reads was
  {
    forall j {:trigger RewiredAt(was, k, x, j)} :: 0 <= j < |was| ==> RewiredAt(was, k, x, j)
  }

  /** The pointers that change put x between its neighbours. */
  lemma {:induction false} ChainInsert(was: seq<UtilTimer>, k: nat, x: UtilTimer)
    requires Distinct(was) && x !in was && k <= |was| && Rewired(was, k, x)
    requires x.next == if k < |was| then was[k] else null
    requires x.prev == if k > 0 then was[k - 1] else null
    ensures Chain(Insert(was, k, x))
  {
    var now := Insert(was, k, x);
    DistinctInsert(was, k, x);
    forall j | 0 <= j < |now|
      ensures LinkedAt(now, j)
    {
      assert now[j] == if j < k then was[j] else if j == k then x else was[j - 1];
      if j < k {
        assert RewiredAt(was, k, x, j);
      } else if j > k {
        assert RewiredAt(was, k, x, j - 1);
      }
    }
  }

  /** Node j of a chain from which node k is being taken. */
  ghost predicate BypassedAt(was: seq<UtilTimer>, k: nat, j: nat)
    requires j < |was| && k < |was|
    reads was
  {
    j != k ==>
      && was[j].next == NextOf(was, if j + 1 == k then k else j)
      && was[j].prev == PrevOf(was, if j == k + 1 then k else j)
  }

  ghost predicate Bypassed(was: seq<UtilTimer>, k: nat)
    requires k < |was|
    reads was
  {
    forall j {:trigger BypassedAt(was, k, j)} :: 0 <= j < |was| ==> BypassedAt(was, k, j)
  }

  /** The pointers that change make the neighbours of node k neighbours. */
  lemma {:induction false} ChainRemove(was: seq<UtilTimer>, k: nat)
    requires Distinct(was) && k < |was| && Bypassed(was, k)
    ensures Chain(Remove(was, k)) && was[k] !in Remove(was, k)
  {
    var now := Remove(was, k);
    forall j | 0 <= j < |now|
      ensures LinkedAt(now, j) && now[j] != was[k]
    {
      assert BypassedAt(was, k, if j < k then j else j + 1);
    }
  }

  /** What add_timer makes of a list and its keys. */
  lemma {:induction false} RemoveKeepsOrder(keys: seq<int>, k: nat)
    requires Sorted(keys) && k < |keys|
    ensures Sorted(Remove(keys, k))
  {
  }

  /** A key that grew but not past its successor stays where stable insertion would put it. */
  lemma {:induction false} ReinsertInPlace<T>(s: seq<T>, keys: seq<int>, k: nat, e: int)
    requires Sorted(keys) && k < |keys| == |s| && keys[k] <= e
    requires k + 1 < |keys| ==> e < keys[k + 1]
    ensures Place(Remove(keys, k), e) == k
    ensures Insert(Remove(s, k), k, s[k]) == s && Insert(Remove(keys, k), k, e) == keys[k := e]
  {
    PlaceIs(Remove(keys, k), e, k);
  }

  class SortTimerList {
    var head: UtilTimer?
    var tail: UtilTimer?
    ghost var nodes: seq<UtilTimer>
    ghost var keys: seq<int>

    /** tail is only meaningful in a non-empty list: tick leaves it behind when it empties one. */
    ghost predicate Linked()
      reads this, nodes
    {
      && Chain(nodes)
      && head == (if nodes == [] then null else nodes[0])
      && (nodes != [] ==> tail == nodes[|nodes| - 1])
    }

    ghost predicate Valid()
      reads this, nodes
    {
      Linked() && KeyedBy(nodes, keys) && Sorted(keys)
    }

    constructor ()
      ensures Valid() && nodes == [] && keys == []
    {
      head, tail, nodes, keys := null, null, [], [];
    }

    /** add_timer(timer): before the head, or behind it; a null timer is ignored. */
    method AddTimer(timer: UtilTimer?)
      requires Valid()
      requires timer != null ==> timer !in nodes && timer.next == null && timer.prev == null
      modifies this, nodes, if timer == null then {} else {timer}
      ensures Valid()
      ensures timer == null ==> nodes == old(nodes) && keys == old(keys)
      ensures timer != null ==> timer.expire == old(timer.expire)
      ensures timer != null ==>
        && nodes == Insert(old(nodes), Place(old(keys), timer.expire), timer)
        && keys == Insert(old(keys), Place(old(keys), timer.expire), timer.expire)
    {
      if timer == null {
        return;
      }
      if head == null {
        head, tail := timer, timer;
        nodes, keys := [timer], [timer.expire];
        return;
      }
      if timer.expire < head.expire {
        assert head.expire == keys[0];
        LinkFront(timer);
        return;
      }
      assert nodes[0].expire == keys[0];
      AddTimerAfter(timer, head);
    }

    /** The branch of add_timer for a timer earlier than every other */
    method LinkFront(timer: UtilTimer)
      requires Valid() && nodes != [] && timer !in nodes && timer.prev == null && timer.expire < keys[0]
      modifies this, nodes, timer
      ensures Valid()
      ensures nodes == Insert(old(nodes), 0, timer) && keys == Insert(old(keys), 0, timer.expire)
      ensures timer.expire == old(timer.expire)
    {
      hide Insert, Place, Sorted;
      ghost var was, wasKeys := nodes, keys;
      assert forall j :: 0 <= j < |was| ==> LinkedAt(was, j);
      timer.next := head;
      head.prev := timer;
      head := timer;
      forall j | 0 <= j < |was| ensures RewiredAt(was, 0, timer, j) {
        assert old(LinkedAt(was, j));
        DistinctAt(was, j, 0);
      }
      ChainInsert(was, 0, timer);
      PlaceIs(wasKeys, timer.expire, 0);
      InsertSorted(wasKeys, timer.expire);
      InsertKeyed(was, wasKeys, 0, timer);
      nodes := Insert(was, 0, timer);
      keys := Insert(wasKeys, 0, timer.expire);
      assert nodes[|was|] == was[|was| - 1];
      InsertAt(was, 0, timer);
    }

    /** The traversal of add_timer(timer, lst_head): past every timer that is not later. */
    method FindPlace(time: int, lstHead: UtilTimer) returns (prev: UtilTimer, tmp: UtilTimer?)
      requires Valid() && lstHead in nodes && lstHead.expire <= time
      ensures var k := Place(keys, time); 0 < k <= |nodes| && prev == nodes[k - 1] && tmp == NextOf(nodes, k - 1)
    {
      ghost var h: nat :| h < |nodes| && nodes[h] == lstHead;
      ghost var k := h + 1;
      assert LinkedAt(nodes, h);
      prev := lstHead;
      tmp := prev.next;
      while tmp != null && tmp.expire <= time
        invariant 0 < k <= |nodes| && prev == nodes[k - 1] && prev.expire <= time
        invariant tmp == NextOf(nodes, k - 1)
        decreases |nodes| - k
      {
        prev := tmp;
        tmp := tmp.next;
        k := k + 1;
        assert LinkedAt(nodes, k - 1);
      }
      assert keys[k - 1] <= time;
      PlaceIs(keys, time, k);
    }

    /** add_timer(timer, lst_head) */
    method AddTimerAfter(timer: UtilTimer, lstHead: UtilTimer)
      requires Valid() && timer !in nodes && lstHead in nodes && lstHead.expire <= timer.expire
      modifies this, nodes, timer
      ensures Valid()
      ensures keys == Insert(old(keys), Place(old(keys), timer.expire), timer.expire)
      ensures nodes == Insert(old(nodes), Place(old(keys), timer.expire), timer)
      ensures timer.expire == old(timer.expire)
    {
      var prev, tmp := FindPlace(timer.expire, lstHead);
      InsertSorted(keys, timer.expire);
      LinkBetween(timer, prev, tmp, Place(keys, timer.expire));
    }

    /** The pointer assignments of add_timer at the place that was found. */
    method LinkBetween(timer: UtilTimer, prev: UtilTimer, tmp: UtilTimer?, ghost k: nat)
      requires Linked() && KeyedBy(nodes, keys) && timer !in nodes && 0 < k <= |nodes|
      requires prev == nodes[k - 1] && tmp == NextOf(nodes, k - 1)
      modifies this, nodes, timer
      ensures Linked() && KeyedBy(nodes, keys)
      ensures nodes == Insert(old(nodes), k, timer) && keys == Insert(old(keys), k, timer.expire)
      ensures timer.expire == old(timer.expire)
    {
      ghost var was, wasKeys := nodes, keys;
      assert forall j :: 0 <= j < |was| ==> LinkedAt(was, j);
      DistinctAt(was, k - 1, if k < |was| then k else k - 1);
      Wire(timer, prev, tmp);
      assert Rewired(was, k, timer) by {
        forall j | 0 <= j < |was| ensures RewiredAt(was, k, timer, j) {
          assert old(LinkedAt(was, j));
          DistinctAt(was, j, k - 1);
          if k < |was| {
            DistinctAt(was, j, k);
          }
        }
      }
      ChainInsert(was, k, timer);
      nodes := Insert(was, k, timer);
      keys := Insert(wasKeys, k, timer.expire);
    }

    /** The assignments of the two branches */
    method Wire(timer: UtilTimer, prev: UtilTimer, tmp: UtilTimer?)
      requires timer != prev && timer != tmp && prev != tmp
      modifies `tail, timer, prev`next, if tmp == null then {} else {tmp}
      ensures prev.next == timer && timer.next == tmp && timer.prev == prev
      ensures tmp != null ==> tmp.prev == timer && tmp.next == old(tmp.next) && tmp.expire == old(tmp.expire)
      ensures tail == (if tmp == null then timer else old(tail)) && timer.expire == old(timer.expire)
    {
      if tmp != null {
        prev.next := timer;
        timer.next := tmp;
        tmp.prev := timer;
        timer.prev := prev;
      } else {
        prev.next := timer;
        timer.prev := prev;
        timer.next := null;
        tail := timer;
      }
    }
  
    /** Take the head out of a longer list. */
    method DropHead(ghost second: UtilTimer)
      requires Linked() && |nodes| == |keys| > 1 && second == nodes[1]
      modifies `head, `nodes, `keys, second`prev
      ensures Linked() && nodes == Remove(old(nodes), 0) && keys == Remove(old(keys), 0)
      ensures old(nodes)[0] !in nodes
    {
      ghost var was := nodes;
      assert LinkedAt(was, 0);
      head := head.next;
      head.prev := null;
      forall j | 0 <= j < |was| ensures BypassedAt(was, 0, j) {
        assert old(LinkedAt(was, j));
        DistinctAt(was, j, 1);
      }
      ChainRemove(was, 0);
      nodes, keys := Remove(was, 0), Remove(keys, 0);
    }

    /** Take the last timer out of a longer list. */
    method DropTail(ghost before: UtilTimer)
      requires Linked() && |nodes| == |keys| > 1 && before == nodes[|nodes| - 2]
      modifies `tail, `nodes, `keys, before`next
      ensures Linked() && nodes == Remove(old(nodes), |old(nodes)| - 1) && keys == Remove(old(keys), |old(nodes)| - 1)
      ensures old(nodes)[|old(nodes)| - 1] !in nodes
    {
      ghost var was, last := nodes, |nodes| - 1;
      assert LinkedAt(was, last);
      tail := tail.prev;
      tail.next := null;
      forall j | 0 <= j < |was| ensures BypassedAt(was, last, j) {
        assert old(LinkedAt(was, j));
        DistinctAt(was, j, last - 1);
      }
      ChainRemove(was, last);
      nodes, keys := Remove(was, last), Remove(keys, last);
    }

    /** Take a timer with two neighbours out of the list. */
    method DropMiddle(timer: UtilTimer, ghost k: nat, ghost before: UtilTimer, ghost behind: UtilTimer)
      requires Linked() && |nodes| == |keys| && 0 < k < |nodes| - 1 && timer == nodes[k]
      requires before == nodes[k - 1] && behind == nodes[k + 1]
      modifies `nodes, `keys, before`next, behind`prev
      ensures Linked() && nodes == Remove(old(nodes), k) && keys == Remove(old(keys), k)
      ensures timer !in nodes
    {
      ghost var was := nodes;
      assert LinkedAt(was, k) && LinkedAt(was, k - 1) && LinkedAt(was, k + 1);
      DistinctAt(was, k, k - 1);
      DistinctAt(was, k, k + 1);
      timer.prev.next := timer.next;
      timer.next.prev := timer.prev;
      forall j | 0 <= j < |was| ensures BypassedAt(was, k, j) {
        assert old(LinkedAt(was, j));
        DistinctAt(was, j, k - 1);
        DistinctAt(was, j, k + 1);
      }
      ChainRemove(was, k);
      DistinctAt(was, 0, k);
      DistinctAt(was, |was| - 1, k);
      nodes, keys := Remove(was, k), Remove(keys, k);
    }

    /** del_timer: removes exactly its node, in all four branches. */
    method DelTimer(timer: UtilTimer?, ghost k: nat)
      requires Valid() && (timer != null ==> k < |nodes| && timer == nodes[k])
      modifies this, nodes
      ensures Valid()
      ensures timer == null ==> nodes == old(nodes) && keys == old(keys)
      ensures timer != null ==> nodes == Remove(old(nodes), k) && keys == Remove(old(keys), k) && timer !in nodes
    {
      if timer == null {
        return;
      }
      ghost var was, wasKeys := nodes, keys;
      DistinctAt(was, 0, k);
      DistinctAt(was, |was| - 1, k);
      RemoveKeepsOrder(keys, k);
      if timer == head && timer == tail {
        head, tail := null, null;
        nodes, keys := Remove(was, k), Remove(keys, k);
      } else if timer == head {
        DropHead(nodes[1]);
      } else if timer == tail {
        DropTail(nodes[k - 1]);
      } else {
        DropMiddle(timer, k, nodes[k - 1], nodes[k + 1]);
      }
      OthersKeyed(was, wasKeys, k);
    }
  
    /** A valid list but for the timer at place k, whose expire may have grown. */
    ghost predicate Delayed(k: nat)
      reads this, nodes
    {
      && Linked() && Sorted(keys) && k < |nodes| == |keys|
      && (forall j :: 0 <= j < |nodes| && j != k ==> nodes[j].expire == keys[j])
      && keys[k] <= nodes[k].expire
    }

    /** The assignment to timer->expire that comes before adjust_timer. */
    method Delay(timer: UtilTimer, ghost k: nat, time: int)
      requires Valid() && k < |nodes| && timer == nodes[k] && keys[k] <= time
      modifies timer`expire
      ensures Delayed(k) && timer.expire == time
    {
      forall j | 0 <= j < |nodes| && j != k ensures nodes[j] != timer {
        DistinctAt(nodes, j, k);
      }
      hide Sorted;
      timer.expire := time;
      forall j | 0 <= j < |nodes| ensures LinkedAt(nodes, j) {
        assert old(LinkedAt(nodes, j));
      }
    }

    /** adjust_timer: the timer at place k, whose expire has grown, moves to its stable place. */
    method AdjustTimer(timer: UtilTimer?, ghost k: nat)
      requires timer == null ==> Valid()
      requires timer != null ==> Delayed(k) && timer == nodes[k]
      modifies this, nodes
      ensures Valid()
      ensures timer == null ==> nodes == old(nodes) && keys == old(keys)
      ensures timer != null ==>
        var others := Remove(old(keys), k);
        && timer.expire == old(timer.expire)
        && nodes == Insert(Remove(old(nodes), k), Place(others, timer.expire), timer)
        && keys == Insert(others, Place(others, timer.expire), timer.expire)
    {
      if timer == null {
        return;
      }
      hide Insert, Remove, Place, Sorted;
      assert LinkedAt(nodes, k);
      var tmp := timer.next;
      if tmp == null || timer.expire < tmp.expire {
        Stay(timer, k);
        return;
      }
      ghost var nextPlace: nat := k + 1;
      assert tmp == nodes[nextPlace];
      DistinctAt(nodes, 0, k);
      if timer == head {
        MoveHead(timer);
      } else {
        MoveMiddle(timer, k);
      }
    }

    /** adjust_timer leaves the list alone: the timer is where stable insertion would put it. */
    ghost method Stay(timer: UtilTimer, k: nat)
      requires Delayed(k) && timer == nodes[k] && (k + 1 < |nodes| ==> timer.expire < nodes[k + 1].expire)
      modifies `keys
      ensures Valid()
      ensures var others := Remove(old(keys), k);
        && nodes == Insert(Remove(nodes, k), Place(others, timer.expire), timer)
        && keys == Insert(others, Place(others, timer.expire), timer.expire)
    {
      hide Insert, Remove, Place, Chain;
      ReinsertInPlace(nodes, keys, k, timer.expire);
      keys := keys[k := timer.expire];
    }

    /** adjust_timer for the head of the list */
    method MoveHead(timer: UtilTimer)
      requires Delayed(0) && timer == nodes[0] && |nodes| > 1 && nodes[1].expire <= timer.expire
      modifies this, nodes
      ensures Valid() && timer.expire == old(timer.expire)
      ensures var others := Remove(old(keys), 0);
        && nodes == Insert(Remove(old(nodes), 0), Place(others, timer.expire), timer)
        && keys == Insert(others, Place(others, timer.expire), timer.expire)
    {
      ghost var was, wasKeys := nodes, keys;
      RemoveKeepsOrder(keys, 0);
      DropHead(nodes[1]);
      assert head == was[1] && nodes[0] == was[1];
      timer.next := null;
      OthersKeyed(was, wasKeys, 0);
      AddTimerAfter(timer, head);
    }

    /** adjust_timer for a timer with two neighbours */
    method MoveMiddle(timer: UtilTimer, ghost k: nat)
      requires Delayed(k) && timer == nodes[k] && 0 < k < |nodes| - 1 && nodes[k + 1].expire <= timer.expire
      modifies this, nodes
      ensures Valid() && timer.expire == old(timer.expire)
      ensures var others := Remove(old(keys), k);
        && nodes == Insert(Remove(old(nodes), k), Place(others, timer.expire), timer)
        && keys == Insert(others, Place(others, timer.expire), timer.expire)
    {
      ghost var was, wasKeys := nodes, keys;
      RemoveKeepsOrder(keys, k);
      assert LinkedAt(was, k);
      DropMiddle(timer, k, nodes[k - 1], nodes[k + 1]);
      DistinctAt(was, k, k - 1);
      DistinctAt(was, k, k + 1);
      assert timer.next == was[k + 1] && nodes[k] == was[k + 1];
      OthersKeyed(was, wasKeys, k);
      AddTimerAfter(timer, timer.next);
    }

    /** tick at time `now`: the call-backs, in the order in which they are made. */
    method Tick(now: int) returns (fired: seq<UtilTimer>)
      requires Valid()
      modifies this, nodes
      ensures Valid()
      ensures fired == old(nodes)[..Place(old(keys), now)]
      ensures nodes == old(nodes)[Place(old(keys), now)..] && keys == old(keys)[Place(old(keys), now)..]
    {
      hide Chain, KeyedBy, Sorted, Place;
      HeadKey();
      ghost var was, wasKeys := nodes, keys;
      fired := [];
      ghost var i := 0;
      var tmp := head;
      while tmp != null && tmp.expire <= now
        invariant Valid() && tmp == head
        invariant i <= |was| == |wasKeys| && nodes == was[i..] && keys == wasKeys[i..] && fired == was[..i]
        invariant forall j :: 0 <= j < i ==> wasKeys[j] <= now
        decreases |was| - i
      {
        HeadKey();
        assert was[i..][0] == was[i] && wasKeys[i..][0] == wasKeys[i];
        assert was[i..][1..] == was[i + 1..] && wasKeys[i..][1..] == wasKeys[i + 1..];
        assert was[..i] + [was[i]] == was[..i + 1];
        fired := fired + [tmp];
        DropFirst();
        tmp := head;
        i := i + 1;
      }
      if tmp != null {
        HeadKey();
        assert wasKeys[i..][0] == wasKeys[i];
      }
      PlaceIs(wasKeys, now, i);
    }

    lemma HeadKey()
      requires Valid()
      ensures |keys| == |nodes|
      ensures head != null ==> nodes != [] && head == nodes[0] && head.expire == keys[0]
      ensures head == null ==> nodes == []
    {
    }

    /** The end of an iteration of tick: the head goes, tail is left alone. */
    method DropFirst()
      requires Valid() && nodes != []
      modifies this, nodes
      ensures Valid() && nodes == old(nodes)[1..] && keys == old(keys)[1..]
    {
      ghost var was, wasKeys := nodes, keys;
      hide Remove, Sorted;
      assert LinkedAt(was, 0);
      RemoveKeepsOrder(keys, 0);
      RemoveFirst(was);
      RemoveFirst(keys);
      if head.next == null {
        head := null;
        nodes, keys := [], [];
      } else {
        DropHead(nodes[1]);
      }
      OthersKeyed(was, wasKeys, 0);
    }
  }

  lemma {:induction false} OthersKeyed(nodes: seq<UtilTimer>, keys: seq<int>, k: nat)
    requires k < |nodes| == |keys|
    requires forall j :: 0 <= j < |nodes| && j != k ==> nodes[j].expire == keys[j]
    ensures KeyedBy(Remove(nodes, k), Remove(keys, k))
  {
  }

  lemma {:induction false} InsertKeyed(nodes: seq<UtilTimer>, keys: seq<int>, k: nat, x: UtilTimer)
    requires KeyedBy(nodes, keys) && k <= |nodes|
    ensures KeyedBy(Insert(nodes, k, x), Insert(keys, k, x.expire))
  {
  }

  // -------------------------------------------------------------- traversals

  /** The nodes met from `n` along the next pointers, for at most `steps` nodes of the list. */
  ghost function Forward(nodes: seq<UtilTimer>, n: UtilTimer?, steps: nat): seq<UtilTimer>
    reads nodes
  {
    if n == null || n !in nodes || steps == 0 then [] else [n] + Forward(nodes, n.next, steps - 1)
  }

  ghost function Backward(nodes: seq<UtilTimer>, n: UtilTimer?, steps: nat): seq<UtilTimer>
    reads nodes
  {
    if n == null || n !in nodes || steps == 0 then [] else Backward(nodes, n.prev, steps - 1) + [n]
  }

  lemma {:induction false} ForwardFrom(nodes: seq<UtilTimer>, i: nat, steps: nat)
    requires Chain(nodes) && i <= |nodes| && steps >= |nodes| - i
    ensures Forward(nodes, if i < |nodes| then nodes[i] else null, steps) == nodes[i..]
    decreases |nodes| - i
  {
    if i < |nodes| {
      assert LinkedAt(nodes, i);
      ForwardFrom(nodes, i + 1, steps - 1);
      assert nodes[i..] == [nodes[i]] + nodes[i + 1..];
    }
  }

  lemma {:induction false} BackwardFrom(nodes: seq<UtilTimer>, i: nat, steps: nat)
    requires Chain(nodes) && i <= |nodes| && steps >= i
    ensures Backward(nodes, if i > 0 then nodes[i - 1] else null, steps) == nodes[..i]
  {
    if i > 0 {
      assert LinkedAt(nodes, i - 1);
      BackwardFrom(nodes, i - 1, steps - 1);
      assert nodes[..i] == nodes[..i - 1] + [nodes[i - 1]];
    }
  }

  /** Walked forwards from head and, when there is a node, backwards from tail, a list is the same
      sequence, however many steps are allowed beyond its length. */
  lemma {:induction false} WalksAgree(list: SortTimerList, steps: nat)
    requires list.Linked() && steps >= |list.nodes|
    ensures Forward(list.nodes, list.head, steps) == list.nodes
    ensures list.head != null ==> Backward(list.nodes, list.tail, steps) == list.nodes
  {
    ForwardFrom(list.nodes, 0, steps);
    BackwardFrom(list.nodes, |list.nodes|, steps);
    assert list.nodes[0..] == list.nodes == list.nodes[..|list.nodes|];
  }
}
