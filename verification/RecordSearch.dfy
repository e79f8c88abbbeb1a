/** The search for a message id in the linked list of records. */
module RecordSearch {
  import opened Sessions
  import opened StoreAgreement
  import opened ClientRecord
  import LinkedList

  /** The list's own search for an id, which starts at the cursor, ends at the record that the linear
      search finds. */
  lemma SearchById(l: LinkedList.List<Messages>, id: nat, k: nat)
    requires l.Valid() && DistinctIds(AbsList(l.Contents())) && l.Finds((m: Messages) => m.msgid == id, k)
    ensures k == IndexOf(AbsList(l.Contents()), id)
  {
    var accept := (m: Messages) => m.msgid == id;
    var records := l.Contents();
    forall i, j | 0 <= i < j < |records| ensures !(accept(records[i]) && accept(records[j])) {
      assert AbsList(records)[i].msgid != AbsList(records)[j].msgid;
    }
    LinkedList.CursorIsOnlyACache(l, accept, k);
    var f := IndexOf(AbsList(records), id);
    assert f < |records| ==> accept(records[f]);
    assert k < |records| ==> AbsList(records)[k].msgid == id;
  }
}
