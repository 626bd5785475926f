/** The doubly linked list of lib/ll.c with its one built-in iterator. */
module ResultList {

  class Elem<T> {
    var prev: Elem?<T>
    var next: Elem?<T>
    const data: T

    constructor (data: T)
      ensures this.data == data && prev == null && next == null
    {
      this.data := data;
      prev, next := null, null;
    }
  }

  class List<T> {
    var cnt: int
    var first: Elem?<T>
    var last: Elem?<T>
    var it: Elem?<T>

    /** The elements of the list, first to last, and the same elements as a set. */
    ghost var spine: seq<Elem<T>>
    ghost var nodes: set<Elem<T>>
    /** Elements that were in the list and are freed. */
    ghost var freed: set<Elem<T>>

    ghost predicate Linked(i: nat)
      requires i < |spine|
      reads this`spine, spine
    {
      && spine[i].next == (if i + 1 < |spine| then spine[i + 1] else null)
      && spine[i].prev == (if i > 0 then spine[i - 1] else null)
    }

    ghost predicate Valid()
      reads this`cnt, this`first, this`last, this`it, this`spine, this`nodes, this`freed, spine
    {
      && cnt == |spine|
      && first == (if spine == [] then null else spine[0])
      && last == (if spine == [] then null else spine[|spine| - 1])
      && nodes == (set e | e in spine)
      && nodes !! freed && (it == null || it in nodes || it in freed)
      && (forall i, j :: 0 <= i < j < |spine| ==> spine[i] != spine[j])
      && (forall i :: 0 <= i < |spine| ==> Linked(i))
    }

    /** The data of the elements, first to last. */
    ghost function Data(): (r: seq<T>)
      reads this`spine
      ensures |r| == |spine|
    {
      var es := spine;
      seq(|es|, i requires 0 <= i < |es| => es[i].data)
    }

    /** The iterator stands on element k, or is past the end when k is the number of elements. */
    ghost predicate At(k: nat)
      reads this`spine, this`it
    {
      k <= |spine| && it == if k < |spine| then spine[k] else null
    }

    /** The iterator stands on the first of the elements. */
    ghost predicate AtFirst()
      reads this`spine, this`it
    {
      spine != [] && At(0)
    }

    /** The iterator stands on an element that was freed. */
    ghost predicate Dangling()
      reads this`it, this`freed
    {
      it != null && it in freed
    }

    /** The calls of list_next that stay within the list are those with an iterator that does not dangle. */
    lemma SafeIsAt()
      requires Valid()
      ensures (exists k: nat :: At(k)) <==> !Dangling()
    {
      if it == null {
        assert At(|spine|);
      } else if it in nodes {
        var k :| 0 <= k < |spine| && spine[k] == it;
        assert At(k);
      }
    }

    /** An iterator that stands on an element, or past the end, does not dangle. */
    lemma AtIsSafe()
      requires Valid()
      ensures forall k: nat :: At(k) ==> !Dangling()
      ensures AtFirst() ==> !Dangling() && it != null && At(0)
    {
      SafeIsAt();
    }

    constructor ()
      ensures Valid() && Data() == [] && it == null && nodes == {} && freed == {}
    {
      cnt := 0;
      first, last, it := null, null, null;
      spine, nodes, freed := [], {}, {};
    }

    /** list_append */
    method Append(data: T) returns (elem: Elem<T>)
      requires Valid()
      modifies this`cnt, this`first, this`last, this`spine, this`nodes, nodes
      ensures Valid() && spine == old(spine) + [elem] && nodes == old(nodes) + {elem}
      ensures fresh(elem) && elem.data == data
      ensures Data() == old(Data()) + [data]
    {
      elem := new Elem(data);
      ghost var n := |spine|;
      if cnt == 0 {
        first := elem;
        last := elem;
      } else {
        assert Linked(n - 1);
        last.next := elem;
        elem.prev := last;
        last := elem;
      }
      cnt := cnt + 1;
      spine, nodes := spine + [elem], nodes + {elem};
      forall k | 0 <= k <= n ensures Linked(k) {
        if k < n { assert old(Linked(k)); }
      }
    }

    /** list_get */
    method Get(idx: int) returns (elem: Elem?<T>)
      requires Valid()
      ensures elem == if 0 <= idx < |spine| then spine[idx] else null
    {
      elem := null;
      if 0 <= idx < cnt {
        elem := first;
        var n := idx;
        while n != 0
          invariant 0 <= n <= idx && elem == spine[idx - n]
          decreases n
        {
          assert Linked(idx - n);
          elem := elem.next;
          n := n - 1;
        }
      }
    }

    /** list_first */
    method First() returns (elem: Elem?<T>)
      requires Valid()
      modifies this`it
      ensures Valid() && elem == it && At(0)
    {
      it := first;
      elem := it;
    }

    /** list_next: the iterator must not dangle, that is, it is past the end or on an element k of the list. */
    method Next(ghost k: nat) returns (elem: Elem?<T>)
      requires Valid() && At(k)
      modifies this`it
      ensures Valid() && elem == it && At(if k < |spine| then k + 1 else k)
    {
      if it != null {
        assert Linked(k);
        it := it.next;
      }
      elem := it;
    }

    /** list_flush: frees every element but leaves the iterator where it was, so that it dangles exactly when it stood
        on an element or dangled already. */
    method Flush()
      requires Valid()
      modifies this`cnt, this`first, this`last, this`spine, this`nodes, this`freed
      ensures Valid() && Data() == [] && spine == [] && nodes == {}
      ensures freed == old(freed) + old(nodes) && it == old(it)
      ensures Dangling() <==> old(it) != null
    {
      var elem := first;
      ghost var i, gone := 0, {};
      while elem != null
        invariant 0 <= i <= |spine|
        invariant elem == if i < |spine| then spine[i] else null
        invariant gone == set e | e in spine[..i]
        decreases |spine| - i
      {
        assert Linked(i);
        gone := gone + {elem};
        elem := elem.next;
        i := i + 1;
      }
      assert spine[..i] == spine;
      freed := freed + gone;
      first, last := null, null;
      cnt := 0;
      spine, nodes := [], {};
    }

    /** A whole walk with first/next meets the data of every element once, in order, and further
        calls keep returning NULL. */
    method Walk() returns (seen: seq<T>)
      requires Valid()
      modifies this`it
      ensures Valid() && seen == Data() && At(|spine|)
    {
      seen := [];
      var elem := First();
      while elem != null
        invariant Valid() && |seen| <= |spine| && seen == Data()[..|seen|]
        invariant elem == it && At(|seen|)
        decreases |spine| - |seen|
      {
        seen := seen + [elem.data];
        elem := Next(|seen| - 1);
      }
      elem := Next(|spine|);
      assert elem == null;
    }
  }
}
