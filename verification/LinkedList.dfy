/** The doubly linked list with a cached cursor that holds every queue of the client. */
module LinkedList {
  import opened Bytes

  class ListElement<T> {
    var prev: ListElement?<T>
    var next: ListElement?<T>
    const content: T

    constructor (content: T)
      ensures this.content == content && prev == null && next == null
    {
      this.content := content;
      prev, next := null, null;
    }
  }

  /** Index of the first element that is accepted, or |s|: a plain linear search. */
  ghost function FirstMatch<T>(s: seq<T>, accept: T -> bool): (k: nat)
    ensures k <= |s|
    ensures k < |s| ==> accept(s[k])
    ensures forall i :: 0 <= i < k ==> !accept(s[i])
  {
    if s == [] || accept(s[0]) then 0 else 1 + FirstMatch(s[1..], accept)
  }

  ghost function ContentsOf<T>(nodes: seq<ListElement<T>>): seq<T> {
    seq(|nodes|, i requires 0 <= i < |nodes| => nodes[i].content)
  }

  ghost predicate Distinct<T>(s: seq<T>) {
    forall i, j :: 0 <= i < j < |s| ==> s[i] != s[j]
  }

  lemma DistinctWithout<T>(s: seq<ListElement<T>>, k: nat)
    requires Distinct(s) && k < |s|
    ensures var r := s[..k] + s[k + 1..];
            && Distinct(r) && ContentsOf(r) == ContentsOf(s)[..k] + ContentsOf(s)[k + 1..]
            && forall x :: x in r <==> x in s && x != s[k]
  {
    assert s == s[..k] + [s[k]] + s[k + 1..];
  }

  lemma DistinctWith<T>(s: seq<ListElement<T>>, k: nat, x: ListElement<T>)
    requires Distinct(s) && k <= |s| && x !in s
    ensures var r := s[..k] + [x] + s[k..];
            && Distinct(r) && ContentsOf(r) == ContentsOf(s)[..k] + [x.content] + ContentsOf(s)[k..]
            && forall y :: y in s ==> y in r
  {
    assert s == s[..k] + s[k..];
  }

  lemma DistinctTurned<T>(s: seq<ListElement<T>>, w: nat)
    requires Distinct(s) && w <= |s|
    ensures var r := s[w..] + s[..w];
            && Distinct(r) && ContentsOf(r) == ContentsOf(s)[w..] + ContentsOf(s)[..w]
            && forall y :: y in s ==> y in r
  {
    assert s == s[..w] + s[w..];
  }

  class List<T> {
    var first: ListElement?<T>
    var last: ListElement?<T>
    var current: ListElement?<T>
    var count: nat
    ghost var nodes: seq<ListElement<T>>

    ghost predicate Linked()
      reads this, nodes
    {
      && (nodes == [] ==> first == null && last == null)
      && (nodes != [] ==> first == nodes[0] && first.prev == null)
      && (nodes != [] ==> last == nodes[|nodes| - 1] && last.next == null)
      && (forall i {:trigger nodes[i].prev} :: 1 <= i < |nodes| ==> nodes[i].prev == nodes[i - 1])
      && (forall i {:trigger nodes[i].next} :: 0 <= i < |nodes| - 1 ==> nodes[i].next == nodes[i + 1])
    }

    ghost predicate Valid()
      reads this, nodes
    {
      && Linked()
      && Distinct(nodes)
      && count == |nodes|
      && (current == null || current in nodes)
    }

    ghost function Contents(): (s: seq<T>)
      reads this
      ensures |s| == |nodes|
      ensures forall i :: 0 <= i < |nodes| ==> s[i] == nodes[i].content
    {
      ContentsOf(nodes)
    }

    constructor ()
      ensures Valid() && nodes == [] && current == null
    {
      first, last, current, count := null, null, null, 0;
      nodes := [];
    }

    method Append(content: T)
      requires Valid()
      modifies this, nodes
      ensures Valid()
      ensures |nodes| == |old(nodes)| + 1 && nodes[..|old(nodes)|] == old(nodes) && fresh(nodes[|old(nodes)|])
      ensures Contents() == old(Contents()) + [content]
      ensures current == old(current)
    {
      var newel := new ListElement(content);
      newel.prev := last;
      if first == null {
        first := newel;
      } else {
        last.next := newel;
      }
      last := newel;
      count := count + 1;
      nodes := nodes + [newel];
    }

    /** Insert in front of index, or at the end if index is null. */
    method Insert(content: T, index: ListElement?<T>, ghost k: nat)
      requires Valid()
      requires k <= |nodes| && index == if k == |nodes| then null else nodes[k]
      modifies this, nodes
      ensures Valid()
      ensures |nodes| == |old(nodes)| + 1 && fresh(nodes[k])
      ensures nodes == old(nodes)[..k] + [nodes[k]] + old(nodes)[k..]
      ensures Contents() == old(Contents())[..k] + [content] + old(Contents())[k..]
      ensures current == old(current)
    {
      if index == null {
        Append(content);
      } else {
        var newel := new ListElement(content);
        DistinctWith(nodes, k, newel);
        Splice(newel, index, k);
      }
    }

    /** The pointer surgery of an insertion in front of index. */
    method Splice(newel: ListElement<T>, index: ListElement<T>, ghost k: nat)
      requires Linked() && Distinct(nodes) && count == |nodes|
      requires k < |nodes| && nodes[k] == index && newel !in nodes
      modifies this, nodes, newel
      ensures Linked() && count == |nodes| && current == old(current)
      ensures nodes == old(nodes)[..k] + [newel] + old(nodes)[k..]
    {
      assert index.prev == if k == 0 then null else nodes[k - 1];
      newel.next := index;
      newel.prev := index.prev;
      index.prev := newel;
      if newel.prev != null {
        newel.prev.next := newel;
      } else {
        first := newel;
      }
      count := count + 1;
      nodes := nodes[..k] + [newel] + nodes[k..];
    }

    method NextElement(pos: ListElement?<T>, ghost k: nat) returns (next: ListElement?<T>)
      requires Valid()
      requires k <= |nodes| && pos == if k == 0 then null else nodes[k - 1]
      ensures next == if k == |nodes| then null else nodes[k]
    {
      next := if pos == null then first else pos.next;
    }

    /** k is the position the search settles on: the cursor's own if that is accepted, and otherwise
        the first accepted one, or |nodes| if there is none. */
    ghost predicate Finds(accept: T -> bool, k: nat)
      reads this
    {
      if current != null && accept(current.content) then k < |nodes| && nodes[k] == current
      else k == FirstMatch(Contents(), accept)
    }

    /** The cursor is tried first and moves to what is found. */
    method FindItem(accept: T -> bool) returns (rc: ListElement?<T>, ghost k: nat)
      requires Valid()
      modifies this`current
      ensures Valid()
      ensures old(Finds(accept, k)) && k <= |nodes|
      ensures rc == if k < |nodes| then nodes[k] else null
      ensures current == if rc == null then old(current) else rc
    {
      rc := null;
      if current != null && accept(current.content) {
        rc := current;
        k :| 0 <= k < |nodes| && nodes[k] == current;
      } else {
        var pos := NextElement(null, 0);
        k := 0;
        while pos != null
          invariant 0 <= k <= |nodes| && pos == if k == |nodes| then null else nodes[k]
          invariant forall i :: 0 <= i < k ==> !accept(Contents()[i])
          invariant rc == null && Valid() && current == old(current)
          decreases |nodes| - k
        {
          if accept(pos.content) {
            rc := pos;
            assert accept(Contents()[k]);
            break;
          }
          k := k + 1;
          pos := NextElement(pos, k);
        }
        if rc != null {
          current := rc;
        }
      }
    }

    /** Removes what FindItem finds and nothing else; the cursor stays where it was, or moves on to
        the successor if its own element was removed. */
    method Unlink(accept: T -> bool) returns (removed: bool, ghost k: nat)
      requires Valid()
      modifies this, nodes
      ensures Valid()
      ensures old(Finds(accept, k)) && k <= |old(nodes)|
      ensures removed <==> k < |old(nodes)|
      ensures !removed ==> nodes == old(nodes) && current == old(current)
      ensures removed ==> nodes == old(nodes)[..k] + old(nodes)[k + 1..]
      ensures removed ==> Contents() == old(Contents())[..k] + old(Contents())[k + 1..]
      ensures removed ==>
                current == if old(current) != old(nodes)[k] then old(current)
                           else if k + 1 < |old(nodes)| then old(nodes)[k + 1] else null
    {
      var saved := current;
      ghost var before := nodes;
      var found: ListElement?<T>;
      found, k := FindItem(accept);
      if found == null {
        return false, k;
      }
      assert found.next == if k + 1 < |nodes| then nodes[k + 1] else null;
      var cursor := if saved == found then found.next else saved;
      DistinctWithout(before, k);
      hide Linked;
      Bypass(found, cursor, k);
      removed := true;
    }

    /** The pointer surgery of an unlink. */
    method Bypass(found: ListElement<T>, cursor: ListElement?<T>, ghost k: nat)
      requires Valid() && k < |nodes| && nodes[k] == found && current == found
      modifies this, nodes
      ensures Linked() && count == |nodes| && current == cursor
      ensures nodes == old(nodes)[..k] + old(nodes)[k + 1..]
    {
      assert found.prev == if k == 0 then null else nodes[k - 1];
      assert found.next == if k + 1 == |nodes| then null else nodes[k + 1];
      if found.prev == null {
        first := found.next;
      } else {
        found.prev.next := found.next;
      }
      if found.next == null {
        last := found.prev;
      } else {
        found.next.prev := found.prev;
      }
      current := cursor;
      count := count - 1;
      ghost var before := nodes;
      nodes := nodes[..k] + nodes[k + 1..];
      forall i | 0 <= i < |nodes|
        ensures nodes[i].prev == if i == 0 then null else nodes[i - 1]
        ensures nodes[i].next == if i + 1 == |nodes| then null else nodes[i + 1]
      {
        assert nodes[i] == before[if i < k then i else i + 1];
        assert i > 0 ==> nodes[i - 1] == before[if i - 1 < k then i - 1 else i];
        assert i + 1 < |nodes| ==> nodes[i + 1] == before[if i + 1 < k then i + 1 else i + 2];
      }
    }

    /** Relinks the list so that it starts at wrapel, keeping the cyclic order. */
    method StartAt(wrapel: ListElement<T>, ghost w: nat)
      requires Valid()
      requires 0 < w < |nodes| && nodes[w] == wrapel
      modifies this, nodes
      ensures Valid() && current == old(current)
      ensures nodes == old(nodes)[w..] + old(nodes)[..w]
      ensures Contents() == old(Contents())[w..] + old(Contents())[..w]
    {
      DistinctTurned(nodes, w);
      Relink(wrapel, w);
    }

    method Relink(wrapel: ListElement<T>, ghost w: nat)
      requires Linked() && Distinct(nodes)
      requires 0 < w < |nodes| && nodes[w] == wrapel
      modifies this, nodes
      ensures Linked() && current == old(current) && count == old(count)
      ensures nodes == old(nodes)[w..] + old(nodes)[..w]
    {
      first.prev := last;
      last.next := first;
      first := wrapel;
      last := wrapel.prev;
      first.prev := null;
      last.next := null;
      nodes := nodes[w..] + nodes[..w];
    }

    method DetachHead() returns (content: Option<T>)
      requires Valid()
      modifies this, nodes
      ensures Valid()
      ensures old(nodes) == [] ==> content == None && nodes == [] && current == old(current)
      ensures old(nodes) != [] ==>
                && content == Some(old(Contents())[0]) && nodes == old(nodes)[1..] && Contents() == old(Contents())[1..]
                && current == if old(current) != old(nodes)[0] then old(current)
                              else if |old(nodes)| > 1 then old(nodes)[1] else null
    {
      content := None;
      if count > 0 {
        var head := first;
        if current == head {
          current := head.next;
        }
        if last == head {
          last := null;
        }
        content := Some(head.content);
        first := first.next;
        if first != null {
          first.prev := null;
        }
        count := count - 1;
        nodes := nodes[1..];
      }
    }

    method PopTail() returns (content: Option<T>)
      requires Valid()
      modifies this, nodes
      ensures Valid()
      ensures old(nodes) == [] ==> content == None && nodes == [] && current == old(current)
      ensures old(nodes) != [] ==>
                var n := |old(nodes)| - 1;
                && content == Some(old(Contents())[n]) && nodes == old(nodes)[..n] && Contents() == old(Contents())[..n]
                && current == if old(current) != old(nodes)[n] then old(current)
                              else if n > 0 then old(nodes)[n - 1] else null
    {
      content := None;
      if count > 0 {
        var tail := last;
        if current == tail {
          current := tail.prev;
        }
        if first == tail {
          first := null;
        }
        content := Some(tail.content);
        last := last.prev;
        if last != null {
          last.next := null;
        }
        count := count - 1;
        nodes := nodes[..|nodes| - 1];
      }
    }
  }

  /** The cached cursor is only an optimisation: the search succeeds exactly when a linear search
      does, and finds the same element if there is only one match. */
  lemma CursorIsOnlyACache<T>(l: List<T>, accept: T -> bool, k: nat)
    requires l.Valid() && l.Finds(accept, k)
    ensures k < |l.nodes| <==> exists i :: 0 <= i < |l.nodes| && accept(l.Contents()[i])
    ensures k < |l.nodes| ==> accept(l.Contents()[k])
    ensures (forall i, j :: 0 <= i < j < |l.nodes| ==> !(accept(l.Contents()[i]) && accept(l.Contents()[j])))
            ==> k == FirstMatch(l.Contents(), accept)
  {
    var f := FirstMatch(l.Contents(), accept);
    if k < |l.nodes| {
      assert accept(l.Contents()[k]);
      assert f <= k;
    }
  }
}
