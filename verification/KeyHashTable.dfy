/** The hash table that also keeps its elements in the order in which they were added. */
module KeyHashTable {
  import opened Basics

  datatype Status = OK | INVALIDHASHINDEX | KEYALREADYEXISTS | KEYNOTFOUND | NOCURRENTELEMENT

  class HashElement<K(==), E> {
    const hashindex: nat
    const key: K
    var element: E
    var hashprev: HashElement?<K, E>
    var hashnext: HashElement?<K, E>
    var listprev: HashElement?<K, E>
    var listnext: HashElement?<K, E>

    constructor (k: K, e: E, index: nat)
      ensures key == k && element == e && hashindex == index
      ensures hashprev == null && hashnext == null && listprev == null && listnext == null
    {
      key, element, hashindex := k, e, index;
      hashprev, hashnext, listprev, listnext := null, null, null, null;
    }
  }

  /** `listprev` and `listnext` thread the elements in this order. */
  ghost predicate ListLinked<K, E>(first: HashElement?<K, E>, last: HashElement?<K, E>, order: seq<HashElement<K, E>>)
    reads order`listprev, order`listnext
  {
    && first == (if order == [] then null else order[0])
    && last == (if order == [] then null else order[|order| - 1])
    && (forall i {:trigger order[i].listnext} :: 0 <= i < |order| ==>
          order[i].listnext == if i + 1 < |order| then order[i + 1] else null)
    && (forall i {:trigger order[i].listprev} :: 0 <= i < |order| ==>
          order[i].listprev == if i > 0 then order[i - 1] else null)
  }

  /** `hashprev` and `hashnext` thread one chain. */
  ghost predicate ChainLinked<K, E>(head: HashElement?<K, E>, chain: seq<HashElement<K, E>>)
    reads chain`hashprev, chain`hashnext
  {
    && head == (if chain == [] then null else chain[0])
    && (forall i {:trigger chain[i].hashnext} :: 0 <= i < |chain| ==>
          chain[i].hashnext == if i + 1 < |chain| then chain[i + 1] else null)
    && (forall i {:trigger chain[i].hashprev} :: 0 <= i < |chain| ==>
          chain[i].hashprev == if i > 0 then chain[i - 1] else null)
  }

  ghost predicate Within<K, E>(chains: seq<seq<HashElement<K, E>>>, all: set<HashElement<K, E>>) {
    forall b, n :: 0 <= b < |chains| && n in chains[b] ==> n in all
  }

  ghost predicate BucketsLinked<K, E>(table: array<HashElement?<K, E>>, chains: seq<seq<HashElement<K, E>>>,
          all: set<HashElement<K, E>>)
    requires Within(chains, all)
    reads table, all`hashprev, all`hashnext
  {
    && |chains| == table.Length
    && forall b :: 0 <= b < |chains| ==> ChainLinked(table[b], chains[b])
  }

  /** Both structures hold the same elements, each in the bucket of its key, and no key occurs twice. */
  ghost predicate Agree<K, E>(getIndex: K -> nat, chains: seq<seq<HashElement<K, E>>>, order: seq<HashElement<K, E>>) {
    && (forall i, j :: 0 <= i < j < |order| ==> order[i].key != order[j].key)
    && (forall b, i, j :: 0 <= b < |chains| && 0 <= i < j < |chains[b]| ==> chains[b][i].key != chains[b][j].key)
    && (forall b, n :: 0 <= b < |chains| && n in chains[b] ==> n in order && n.hashindex == b)
    && (forall n :: n in order ==> n.hashindex == getIndex(n.key) < |chains| && n in chains[n.hashindex])
  }

  /** Each element is in the chain of its own bucket, once. */
  ghost predicate Placed<K, E>(chains: seq<seq<HashElement<K, E>>>) {
    && (forall b, n :: 0 <= b < |chains| && n in chains[b] ==> n.hashindex == b)
    && (forall b, i, j :: 0 <= b < |chains| && 0 <= i < j < |chains[b]| ==> chains[b][i] != chains[b][j])
  }

  lemma AgreeIsPlaced<K, E>(getIndex: K -> nat, chains: seq<seq<HashElement<K, E>>>, order: seq<HashElement<K, E>>)
    requires Agree(getIndex, chains, order)
    ensures Placed(chains) && Within(chains, set n | n in order)
    ensures forall a, b :: 0 <= a < b < |order| ==> order[a] != order[b]
  {}

  lemma AgreeAfterAdd<K, E>(getIndex: K -> nat, chains: seq<seq<HashElement<K, E>>>, order: seq<HashElement<K, E>>,
                            n: HashElement<K, E>)
    requires Agree(getIndex, chains, order)
    requires n.hashindex == getIndex(n.key) < |chains| && forall m :: m in order ==> m.key != n.key
    ensures Agree(getIndex, chains[n.hashindex := [n] + chains[n.hashindex]], order + [n])
  {
    var chains': seq<seq<HashElement<K, E>>> := chains[n.hashindex := [n] + chains[n.hashindex]];
    forall b, i, j | 0 <= b < |chains'| && 0 <= i < j < |chains'[b]|
      ensures chains'[b][i].key != chains'[b][j].key
    {
      if b == n.hashindex {
        assert chains'[b][j] == chains[b][j - 1] && chains'[b][j] in chains[b];
        assert i > 0 ==> chains'[b][i] == chains[b][i - 1];
      }
    }
    forall m | m in order + [n]
      ensures m in chains'[m.hashindex]
    {
      if m == n {
        assert chains'[n.hashindex][0] == n;
      } else {
        assert m in chains[m.hashindex];
      }
    }
  }

  lemma AgreeAfterDelete<K, E>(getIndex: K -> nat, chains: seq<seq<HashElement<K, E>>>, order: seq<HashElement<K, E>>,
          i: nat)
    returns (j: nat)
    requires Agree(getIndex, chains, order) && i < |order|
    ensures var n := order[i];
            && n.hashindex < |chains| && j < |chains[n.hashindex]| && chains[n.hashindex][j] == n
            && Agree(getIndex, chains[n.hashindex := Without(chains[n.hashindex], j)], Without(order, i))
  {
    var n := order[i];
    j :| 0 <= j < |chains[n.hashindex]| && chains[n.hashindex][j] == n;
    var chain := Without(chains[n.hashindex], j);
    var chains': seq<seq<HashElement<K, E>>> := chains[n.hashindex := chain];
    NotInWithout(order, i);
    NotInWithout(chains[n.hashindex], j);
    forall m | m in Without(order, i)
      ensures m in chains'[m.hashindex]
    {
      if m.hashindex == n.hashindex {
        InWithout(chains[n.hashindex], j, m);
      }
    }
    forall b, m | 0 <= b < |chains'| && m in chains'[b]
      ensures m in Without(order, i) && m.hashindex == b
    {
      assert m in chains[b] && m != n;
      InWithout(order, i, m);
    }
  }

  lemma NotInWithout<T>(s: seq<T>, k: nat)
    requires k < |s| && forall a, b :: 0 <= a < b < |s| ==> s[a] != s[b]
    ensures forall x :: x in Without(s, k) ==> x in s && x != s[k]
  {}

  lemma InWithout<T>(s: seq<T>, k: nat, x: T)
    requires k < |s| && x in s && x != s[k]
    ensures x in Without(s, k)
  {
    var i :| 0 <= i < |s| && s[i] == x;
    assert Without(s, k)[if i < k then i else i - 1] == x;
  }

  lemma BucketsShrink<K, E>(table: array<HashElement?<K, E>>, chains: seq<seq<HashElement<K, E>>>,
                            all: set<HashElement<K, E>>, fewer: set<HashElement<K, E>>)
    requires Within(chains, all) && Within(chains, fewer) && BucketsLinked(table, chains, all)
    ensures BucketsLinked(table, chains, fewer)
  {}

  /** Puts `n` at the head of its bucket. */
  method PushBucket<K(==), E>(table: array<HashElement?<K, E>>, n: HashElement<K, E>,
                              ghost chains: seq<seq<HashElement<K, E>>>, ghost all: set<HashElement<K, E>>)
    requires Within(chains, all) && BucketsLinked(table, chains, all) && Placed(chains)
    requires n !in all && n.hashindex < |chains| && n.hashprev == null
    modifies table, all`hashprev, n`hashnext
    ensures Within(chains[n.hashindex := [n] + chains[n.hashindex]], all + {n})
    ensures BucketsLinked(table, chains[n.hashindex := [n] + chains[n.hashindex]], all + {n})
  {
    var index := n.hashindex;
    ghost var chain := chains[index];
    assert ChainLinked(table[index], chain);
    var e := table[index];
    table[index] := n;
    n.hashnext := e;
    if e != null {
      e.hashprev := n;
    }
    ghost var chain': seq<HashElement<K, E>> := [n] + chain;
    ghost var chains' := chains[index := chain'];
    forall i | 1 <= i < |chain'|
      ensures chain'[i].hashprev == chain'[i - 1]
    {
      assert chain'[i] == chain[i - 1] && chain[0] == e;
      assert i > 1 ==> chain[i - 1] != e && old(chain[i - 1].hashprev) == chain[i - 2];
    }
    forall b | 0 <= b < |chains'|
      ensures ChainLinked(table[b], chains'[b])
    {
      if b == index {
        assert ChainLinked(table[b], chain');
      } else {
        assert old(ChainLinked(table[b], chains[b]));
        assert e != null ==> chain[0] in chain && e.hashindex == index;
      }
    }
  }

  /** Puts `n` at the end of the list. */
  method AppendList<K(==), E>(first: HashElement?<K, E>, last: HashElement?<K, E>, n: HashElement<K, E>,
                              ghost order: seq<HashElement<K, E>>)
    returns (first': HashElement?<K, E>, last': HashElement?<K, E>)
    requires ListLinked(first, last, order) && n !in order && n.listprev == null && n.listnext == null
    requires forall a, b :: 0 <= a < b < |order| ==> order[a] != order[b]
    modifies order`listnext, n`listprev
    ensures ListLinked(first', last', order + [n])
  {
    first', last' := first, n;
    if first == null {
      first' := n;
    } else {
      last.listnext := n;
      n.listprev := last;
    }
  }

  /** Takes the j-th element out of its chain. */
  method UnlinkBucket<K(==), E>(table: array<HashElement?<K, E>>, n: HashElement<K, E>, ghost j: nat,
                                ghost chains: seq<seq<HashElement<K, E>>>, ghost all: set<HashElement<K, E>>)
    requires Within(chains, all) && BucketsLinked(table, chains, all) && Placed(chains)
    requires n.hashindex < |chains| && j < |chains[n.hashindex]| && chains[n.hashindex][j] == n
    modifies table, all`hashprev, all`hashnext
    ensures Within(chains[n.hashindex := Without(chains[n.hashindex], j)], all)
    ensures BucketsLinked(table, chains[n.hashindex := Without(chains[n.hashindex], j)], all)
  {
    var index := n.hashindex;
    ghost var chain := chains[index];
    assert ChainLinked(table[index], chain);
    var tmp1, tmp2 := n.hashprev, n.hashnext;
    if tmp1 == null {
      table[index] := tmp2;
      if tmp2 != null {
        tmp2.hashprev := null;
      }
    } else {
      tmp1.hashnext := tmp2;
      if tmp2 != null {
        tmp2.hashprev := tmp1;
      }
    }
    ghost var chains' := chains[index := Without(chain, j)];
    forall b | 0 <= b < |chains'|
      ensures ChainLinked(table[b], chains'[b])
    {
      if b != index {
        assert old(ChainLinked(table[b], chains[b]));
      }
    }
  }

  /** Takes the i-th element out of the list; `next` is the one after it. */
  method UnlinkList<K(==), E>(first: HashElement?<K, E>, last: HashElement?<K, E>, n: HashElement<K, E>, ghost i: nat,
                              ghost order: seq<HashElement<K, E>>)
    returns (first': HashElement?<K, E>, last': HashElement?<K, E>, next: HashElement?<K, E>)
    requires ListLinked(first, last, order) && i < |order| && order[i] == n
    requires forall a, b :: 0 <= a < b < |order| ==> order[a] != order[b]
    modifies order`listprev, order`listnext
    ensures ListLinked(first', last', Without(order, i))
    ensures next == if i + 1 < |order| then order[i + 1] else null
  {
    first', last' := first, last;
    var tmp1, tmp2 := n.listprev, n.listnext;
    if tmp1 == null {
      first' := tmp2;
      if tmp2 != null {
        tmp2.listprev := null;
      } else {
        last' := null;
      }
    } else {
      tmp1.listnext := tmp2;
      if tmp2 != null {
        tmp2.listprev := tmp1;
      } else {
        last' := tmp1;
      }
    }
    next := tmp2;
  }

  function Keys<K(==), E>(order: seq<HashElement<K, E>>): (r: seq<K>)
    ensures |r| == |order| && forall i :: 0 <= i < |r| ==> r[i] == order[i].key
  {
    seq(|order|, i requires 0 <= i < |order| => order[i].key)
  }

  /** The elements that a traversal does not delete. */
  function Kept<K(==), E>(order: seq<HashElement<K, E>>, drop: K -> bool): (r: seq<HashElement<K, E>>) {
    if |order| == 0 then []
    else
      var last := |order| - 1;
      Kept(order[..last], drop) + if drop(order[last].key) then [] else [order[last]]
  }

  lemma StartVisit<K, E>(was: seq<HashElement<K, E>>, drop: K -> bool)
    ensures Kept(was[..0], drop) == [] && Keys(was[..0]) == [] && was[0..] == was
  {}

  lemma VisitOne<K, E>(was: seq<HashElement<K, E>>, done: nat, drop: K -> bool)
    requires done < |was|
    ensures Keys(was[..done + 1]) == Keys(was[..done]) + [was[done].key]
    ensures var kept := Kept(was[..done], drop);
            && Kept(was[..done + 1], drop) == kept + (if drop(was[done].key) then [] else [was[done]])
            && (drop(was[done].key) ==>
               Without(kept + was[done..], |kept|) == Kept(was[..done + 1], drop) + was[done + 1..])
            && (!drop(was[done].key) ==> kept + was[done..] == Kept(was[..done + 1], drop) + was[done + 1..])
  {
    assert was[..done + 1][..done] == was[..done];
    assert was[done..] == [was[done]] + was[done + 1..];
  }

  class RTPKeyHashTable<K(==), E> {
    const hashsize: nat
    const getIndex: K -> nat
    const table: array<HashElement?<K, E>>
    var firsthashelem: HashElement?<K, E>
    var lasthashelem: HashElement?<K, E>
    var curhashelem: HashElement?<K, E>
    /** The elements in the order of the list, and the chain of each bucket. */
    ghost var order: seq<HashElement<K, E>>
    ghost var chains: seq<seq<HashElement<K, E>>>

    ghost predicate Valid()
      reads this`firsthashelem, this`lasthashelem, this`order, this`chains, table
      reads order`hashprev, order`hashnext, order`listprev, order`listnext
    {
      && table.Length == hashsize == |chains|
      && Agree(getIndex, chains, order)
      && ListLinked(firsthashelem, lasthashelem, order)
      && BucketsLinked(table, chains, set n | n in order)
    }

    ghost function Elements(): set<HashElement<K, E>>
      reads this`order
    {
      set n | n in order
    }

    /** The cursor is on an element or past the end. */
    ghost predicate CursorOk()
      reads this`curhashelem, this`order
    {
      curhashelem == null || curhashelem in order
    }

    /** The cursor is left as it was found in memory. */
    constructor (size: nat, index: K -> nat)
      ensures Valid() && order == [] && fresh(table)
      ensures hashsize == size && getIndex == index
    {
      hashsize, getIndex := size, index;
      table := new HashElement?<K, E>[size](_ => null);
      firsthashelem, lasthashelem := null, null;
      order, chains := [], seq(size, _ => []);
    }

    /** The element with this key in its bucket, if any. */
    method Search(k: K, index: nat) returns (e: HashElement?<K, E>)
      requires Valid() && index == getIndex(k) < hashsize
      ensures e == null <==> forall n :: n in order ==> n.key != k
      ensures e != null ==> e in order && e.key == k
    {
      hide ListLinked;
      ghost var chain := chains[index];
      ghost var i := 0;
      e := table[index];
      assert ChainLinked(table[index], chain);
      while e != null && e.key != k
        invariant 0 <= i <= |chain| && e == if i < |chain| then chain[i] else null
        invariant forall j :: 0 <= j < i ==> chain[j].key != k
        decreases |chain| - i
      {
        e := e.hashnext;
        i := i + 1;
      }
    }

    /** A new element goes to the end of the order; the cursor stays. */
    method AddElement(k: K, elem: E) returns (status: Status)
      requires Valid()
      modifies this`firsthashelem, this`lasthashelem, this`order, this`chains, table, order`hashprev, order`listnext
      ensures Valid() && curhashelem == old(curhashelem)
      ensures status == if getIndex(k) >= hashsize then INVALIDHASHINDEX
                        else if exists n :: n in old(order) && n.key == k then KEYALREADYEXISTS else OK
      ensures if status == OK
              then |order| == |old(order)| + 1 && old(order) <= order && fresh(order[|old(order)|])
                   && order[|old(order)|].key == k && order[|old(order)|].element == elem
              else order == old(order)
    {
      hide Agree, BucketsLinked, ListLinked, Placed, Within;
      var index := getIndex(k);
      if index >= hashsize {
        status := INVALIDHASHINDEX;
      } else {
        var e := Search(k, index);
        if e != null {
          status := KEYALREADYEXISTS;
        } else {
          var newelem := new HashElement(k, elem, index);
          Insert(newelem);
          status := OK;
        }
      }
    }

    method Insert(newelem: HashElement<K, E>)
      requires Valid() && newelem !in order && newelem.hashindex == getIndex(newelem.key) < hashsize
      requires forall m :: m in order ==> m.key != newelem.key
      requires newelem.hashprev == null && newelem.listprev == null && newelem.listnext == null
      modifies this`firsthashelem, this`lasthashelem, this`order, this`chains, table, order`hashprev, order`listnext
      modifies newelem`hashnext, newelem`listprev
      ensures Valid() && order == old(order) + [newelem]
    {
      hide Agree, BucketsLinked, ListLinked, Placed;
      AgreeIsPlaced(getIndex, chains, order);
      AgreeAfterAdd(getIndex, chains, order, newelem);
      ghost var all := set n | n in order;
      PushBucket(table, newelem, chains, all);
      firsthashelem, lasthashelem := AppendList(firsthashelem, lasthashelem, newelem, order);
      chains := chains[newelem.hashindex := [newelem] + chains[newelem.hashindex]];
      order := order + [newelem];
      assert all + {newelem} == set n | n in order;
    }

    /** Where the cursor is in the order; the length of the list when it is past the end. */
    ghost function Position(): (i: nat)
      requires CursorOk()
      reads this`curhashelem, this`order
      ensures i <= |order| && (i < |order| ==> order[i] == curhashelem) && (curhashelem == null <==> i == |order|)
    {
      if curhashelem == null then |order| else
        var i :| 0 <= i < |order| && order[i] == curhashelem;
        i
    }

    method GotoFirstElement()
      requires Valid()
      modifies this`curhashelem
      ensures CursorOk() && Position() == 0
    {
      curhashelem := firsthashelem;
      DistinctOrder();
    }

    method GotoLastElement()
      requires Valid()
      modifies this`curhashelem
      ensures CursorOk() && Position() == if order == [] then 0 else |order| - 1
    {
      curhashelem := lasthashelem;
      DistinctOrder();
    }

    method GotoNextElement()
      requires Valid() && CursorOk()
      modifies this`curhashelem
      ensures CursorOk() && Position() == if old(Position()) < |order| then old(Position()) + 1 else |order|
    {
      DistinctOrder();
      if curhashelem != null {
        curhashelem := curhashelem.listnext;
      }
    }

    method GotoPreviousElement()
      requires Valid() && CursorOk()
      modifies this`curhashelem
      ensures CursorOk()
      ensures Position() == if 0 < old(Position()) < |order| then old(Position()) - 1 else |order|
    {
      DistinctOrder();
      if curhashelem != null {
        curhashelem := curhashelem.listprev;
      }
    }

    lemma DistinctOrder()
      requires Valid()
      ensures forall a, b :: 0 <= a < b < |order| ==> order[a] != order[b]
    {
      hide ListLinked, BucketsLinked;
    }

    method HasElement(k: K) returns (found: bool)
      requires Valid()
      ensures found <==> exists n :: n in order && n.key == k
    {
      var index := getIndex(k);
      if index >= hashsize {
        assert forall n :: n in order ==> n.hashindex == getIndex(n.key);
        return false;
      }
      var e := Search(k, index);
      found := e != null;
    }

    /** When the key is not there the cursor ends up past the end, unless its bucket index is out of range. */
    method GotoElement(k: K) returns (status: Status)
      requires Valid()
      modifies this`curhashelem
      ensures status == if getIndex(k) >= hashsize then INVALIDHASHINDEX
                        else if exists n :: n in order && n.key == k then OK else KEYNOTFOUND
      ensures status == OK ==> curhashelem != null && CursorOk() && curhashelem.key == k
      ensures status == KEYNOTFOUND ==> curhashelem == null
      ensures status == INVALIDHASHINDEX ==> curhashelem == old(curhashelem)
    {
      var index := getIndex(k);
      if index >= hashsize {
        return INVALIDHASHINDEX;
      }
      curhashelem := Search(k, index);
      status := if curhashelem == null then KEYNOTFOUND else OK;
    }

    /** Deletes from both structures; the cursor moves on to the next element of the list. */
    method DeleteCurrentElement() returns (status: Status)
      requires Valid() && CursorOk()
      modifies this`firsthashelem, this`lasthashelem, this`curhashelem, this`order, this`chains, table
      modifies Elements()`hashprev, Elements()`hashnext, Elements()`listprev, Elements()`listnext
      ensures Valid() && CursorOk()
      ensures status == if old(curhashelem) == null then NOCURRENTELEMENT else OK
      ensures if status == OK then order == Without(old(order), old(Position())) && Position() == old(Position())
              else order == old(order) && curhashelem == null
    {
      if curhashelem == null {
        status := NOCURRENTELEMENT;
      } else {
        ghost var i := Position();
        DeleteAt(curhashelem, i);
        status := OK;
      }
    }

    method DeleteAt(n: HashElement<K, E>, ghost i: nat)
      requires Valid() && i < |order| && order[i] == n
      modifies this`firsthashelem, this`lasthashelem, this`curhashelem, this`order, this`chains, table
      modifies Elements()`hashprev, Elements()`hashnext, Elements()`listprev, Elements()`listnext
      ensures Valid() && order == Without(old(order), i)
      ensures CursorOk() && Position() == i
    {
      hide BucketsLinked, ListLinked, Placed, Agree;
      ghost var all := set m | m in order;
      AgreeIsPlaced(getIndex, chains, order);
      ghost var j := AgreeAfterDelete(getIndex, chains, order, i);
      UnlinkBucket(table, n, j, chains, all);
      firsthashelem, lasthashelem, curhashelem := UnlinkList(firsthashelem, lasthashelem, n, i, order);
      chains := chains[n.hashindex := Without(chains[n.hashindex], j)];
      order := Without(order, i);
      AgreeIsPlaced(getIndex, chains, order);
      BucketsShrink(table, chains, all, set m | m in order);
    }

    method DeleteElement(k: K) returns (status: Status)
      requires Valid()
      modifies this`firsthashelem, this`lasthashelem, this`curhashelem, this`order, this`chains, table
      modifies Elements()`hashprev, Elements()`hashnext, Elements()`listprev, Elements()`listnext
      ensures Valid()
      ensures status == if getIndex(k) >= hashsize then INVALIDHASHINDEX
                        else if exists n :: n in old(order) && n.key == k then OK else KEYNOTFOUND
      ensures if status == OK
              then CursorOk() && (exists i :: 0 <= i < |old(order)| && old(order)[i].key == k
                                    && order == Without(old(order), i) && Position() == i)
              else order == old(order)
    {
      status := GotoElement(k);
      if status == OK {
        status := DeleteCurrentElement();
      }
    }

    /** Clear frees every element and leaves the cursor where it was. */
    method Clear()
      requires Valid()
      modifies this`firsthashelem, this`lasthashelem, this`order, this`chains, table
      ensures Valid() && order == [] && curhashelem == old(curhashelem)
      ensures CursorOk() <==> old(curhashelem) == null
    {
      for i := 0 to hashsize
        invariant forall b :: 0 <= b < i ==> table[b] == null
      {
        table[i] := null;
      }
      firsthashelem, lasthashelem := null, null;
      order, chains := [], seq(hashsize, _ => []);
    }

    /** One step of such a traversal: deletes the current element or moves on. */
    method VisitCurrent(drop: K -> bool) returns (k: K)
      requires Valid() && CursorOk() && curhashelem != null
      modifies this`firsthashelem, this`lasthashelem, this`curhashelem, this`order, this`chains, table
      modifies Elements()`hashprev, Elements()`hashnext, Elements()`listprev, Elements()`listnext
      ensures Valid() && CursorOk() && k == old(curhashelem.key)
      ensures if drop(k) then order == Without(old(order), old(Position())) && Position() == old(Position())
              else order == old(order) && Position() == old(Position()) + 1
    {
      hide Valid;
      k := curhashelem.key;
      if drop(k) {
        var _ := DeleteCurrentElement();
      } else {
        GotoNextElement();
      }
    }

    /** A traversal that deletes as it goes: every element is visited once, in order, and exactly the others stay. */
    method Sweep(drop: K -> bool) returns (visited: seq<K>)
      requires Valid()
      modifies this`firsthashelem, this`lasthashelem, this`curhashelem, this`order, this`chains, table
      modifies Elements()`hashprev, Elements()`hashnext, Elements()`listprev, Elements()`listnext
      ensures Valid() && curhashelem == null
      ensures visited == Keys(old(order)) && order == Kept(old(order), drop)
    {
      hide Valid, Kept, Keys, Without;
      ghost var was := order;
      ghost var done := 0;
      visited := [];
      GotoFirstElement();
      StartVisit(was, drop);
      while curhashelem != null
        invariant Valid() && CursorOk() && done <= |was| && Position() == |Kept(was[..done], drop)|
        invariant order == Kept(was[..done], drop) + was[done..]
        invariant Elements() <= old(Elements())
        invariant visited == Keys(was[..done])
        decreases |was| - done
      {
        VisitOne(was, done, drop);
        var k := VisitCurrent(drop);
        visited := visited + [k];
        done := done + 1;
      }
      assert was[..done] == was;
    }
  }
}
