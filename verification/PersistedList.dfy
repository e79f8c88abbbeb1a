/** The in-place list operations that restore uses: sorted insertion and the wrap of message ids. */
module PersistedList {
  import opened LinkedList
  import opened SendOrder
  import opened Packets

  ghost function Keys<T>(s: seq<T>, key: T -> nat): (r: seq<nat>)
    ensures |r| == |s| && forall i :: 0 <= i < |s| ==> r[i] == key(s[i])
  {
    seq(|s|, i requires 0 <= i < |s| => key(s[i]))
  }

  lemma InsertAtUnique(ids: seq<nat>, id: nat, k: nat)
    requires k <= |ids|
    requires forall i :: 0 <= i < k ==> ids[i] <= id
    requires k < |ids| ==> id < ids[k]
    ensures InsertAt(ids, id) == k
  {
    if ids != [] && ids[0] <= id {
      InsertAtUnique(ids[1..], id, k - 1);
    }
  }

  lemma KeysOfSplice<T>(s: seq<T>, k: nat, x: T, key: T -> nat)
    requires k <= |s|
    ensures Keys(s[..k] + [x] + s[k..], key) == Keys(s, key)[..k] + [key(x)] + Keys(s, key)[k..]
    ensures k == InsertAt(Keys(s, key), key(x)) ==> Keys(s[..k] + [x] + s[k..], key) == Insert(Keys(s, key), key(x))
  {
  }

  /** Inserts before the first element with a larger key, or at the end. */
  method InsertInOrder<T>(list: List<T>, content: T, key: T -> nat)
    requires list.Valid()
    modifies list, list.nodes
    ensures list.Valid() && list.current == old(list.current)
    ensures var k := InsertAt(Keys(old(list.Contents()), key), key(content));
            list.Contents() == old(list.Contents())[..k] + [content] + old(list.Contents())[k..]
    ensures Keys(list.Contents(), key) == Insert(Keys(old(list.Contents()), key), key(content))
  {
    hide List.Valid, Keys, Insert;
    var index: ListElement?<T> := null;
    ghost var keys := Keys(list.Contents(), key);
    ghost var k := 0;
    var current := list.NextElement(null, 0);
    while current != null && index == null
      modifies {}
      invariant 0 <= k <= |list.nodes|
      invariant index == null ==> current == if k == |list.nodes| then null else list.nodes[k]
      invariant index != null ==> k < |list.nodes| && index == list.nodes[k] && key(content) < keys[k]
      invariant forall i :: 0 <= i < k ==> keys[i] <= key(content)
      decreases |list.nodes| - k, index == null
    {
      if key(content) < key(current.content) {
        index := current;
      } else {
        k := k + 1;
        current := list.NextElement(current, k);
      }
    }
    InsertAtUnique(keys, key(content), k);
    KeysOfSplice(list.Contents(), k, content, key);
    list.Insert(content, index, k);
  }

  lemma Rotated<T>(s: seq<T>, k: nat, key: T -> nat)
    requires k <= |s|
    ensures Keys(Rotate(s, k), key) == Rotate(Keys(s, key), k)
    ensures Rotate(s, k) == s[k..] + s[..k] && Rotate(s, 0) == s
  {
  }

  lemma Ends<T>(list: List<T>)
    requires list.Valid()
    ensures list.count == |list.nodes|
    ensures list.nodes != [] ==> list.first == list.nodes[0] && list.last == list.nodes[|list.nodes| - 1]
  {
  }

  lemma BehindFirst<T>(list: List<T>, i: nat)
    requires list.Valid() && 1 <= i < |list.nodes|
    ensures list.nodes[i].prev == list.nodes[i - 1]
  {
  }

  /** Moves the part after the largest gap between message ids to the front of the list. */
  method WrapMsgID<T>(list: List<T>, key: T -> nat)
    requires list.Valid()
    modifies list, list.nodes
    ensures list.Valid() && list.current == old(list.current)
    ensures list.Contents() == Rotate(old(list.Contents()), WrapAt(Keys(old(list.Contents()), key)))
    ensures Keys(list.Contents(), key) == Rotate(Keys(old(list.Contents()), key), WrapAt(Keys(old(list.Contents()), key)))
  {
    hide Rotate, Keys;
    var wrapel: ListElement?<T> := null;
    ghost var keys := Keys(list.Contents(), key);
    ghost var w := 0;
    Ends(list);
    hide List.Valid;
    if list.count > 0 {
      var firstMsgID: int := key(list.first.content);
      var lastMsgID: int := key(list.last.content);
      var gap := MAX_MSG_ID - lastMsgID + firstMsgID;
      ghost var i := 1;
      var current := list.NextElement(null, 0);
      current := list.NextElement(current, 1);
      while current != null
        modifies {}
        invariant 1 <= i <= |list.nodes| && w < i
        invariant current == if i == |list.nodes| then null else list.nodes[i]
        invariant WrapAt(keys) == WrapScan(keys, i, w)
        invariant gap == GapBefore(keys, w)
        invariant wrapel == if w == 0 then null else list.nodes[w]
        decreases |list.nodes| - i
      {
        BehindFirst(list, i);
        var curMsgID: int := key(current.content);
        var curPrevMsgID: int := key(current.prev.content);
        var curgap := curMsgID - curPrevMsgID;
        if curgap > gap {
          gap := curgap;
          wrapel := current;
          w := i;
        }
        i := i + 1;
        current := list.NextElement(current, i);
      }
    }
    Rotated(list.Contents(), w, key);
    if wrapel != null {
      list.StartAt(wrapel, w);
    }
  }
}
