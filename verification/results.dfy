/**
 * The record merge shared by the heuristic and the model path:
 * `{**email, "category": ..., "category_reason": ..., "action_items": ...}`.
 * The three result keys are set or overwritten; every other key keeps its
 * value and its position.
 */
module Results {
  import opened Wrappers
  import opened Json

  /** The keys both processing paths write. */
  const ResultKeys: set<string> := {"category", "category_reason", "action_items"}

  /** The merged record. */
  function WithResults(email: Record, category: Value, reason: Value, items: Value): (r: Record)
    ensures Get(r, "category") == Some(category)
    ensures Get(r, "category_reason") == Some(reason)
    ensures Get(r, "action_items") == Some(items)
    ensures forall k :: k != "category" && k != "category_reason" && k != "action_items" ==>
      Get(r, k) == Get(email, k)
  {
    Put(Put(Put(email, "category", category), "category_reason", reason), "action_items", items)
  }

  /** The merged record has exactly the original keys plus the three
      result keys. */
  lemma WithResultsKeys(email: Record, category: Value, reason: Value, items: Value)
    ensures Keys(WithResults(email, category, reason, items)) == Keys(email) + ResultKeys
  {
    var r1 := Put(email, "category", category);
    var r2 := Put(r1, "category_reason", reason);
    var r3 := Put(r2, "action_items", items);
    assert Keys(r3) == Keys(email) + {"category"} + {"category_reason"} + {"action_items"};
    assert ResultKeys == {"category"} + {"category_reason"} + {"action_items"};
  }

  /** The original keys stay in their slots; result keys that were missing
      come after them. */
  lemma WithResultsKeepsSlots(email: Record, category: Value, reason: Value, items: Value)
    ensures |WithResults(email, category, reason, items)| >= |email|
    ensures forall i :: 0 <= i < |email| ==> WithResults(email, category, reason, items)[i].key == email[i].key
  {
    var r1 := Put(email, "category", category);
    var r2 := Put(r1, "category_reason", reason);
    PutKeepsSlots(email, "category", category);
    PutKeepsSlots(r1, "category_reason", reason);
    PutKeepsSlots(r2, "action_items", items);
  }

  /** A record without duplicate keys stays so. */
  lemma WithResultsUnique(email: Record, category: Value, reason: Value, items: Value)
    requires UniqueKeys(email)
    ensures UniqueKeys(WithResults(email, category, reason, items))
  {
    var r1 := Put(email, "category", category);
    var r2 := Put(r1, "category_reason", reason);
    PutUnique(email, "category", category);
    PutUnique(r1, "category_reason", reason);
    PutUnique(r2, "action_items", items);
  }

  /** A record that already carries all three result keys keeps its length
      and its key order. */
  lemma WithResultsOverwrites(email: Record, category: Value, reason: Value, items: Value)
    requires ResultKeys <= Keys(email)
    ensures |WithResults(email, category, reason, items)| == |email|
  {
    var r1 := Put(email, "category", category);
    var r2 := Put(r1, "category_reason", reason);
    assert "category" in Keys(email) && "category_reason" in Keys(email) && "action_items" in Keys(email);
    PutKeepsSlots(email, "category", category);
    PutKeepsSlots(r1, "category_reason", reason);
    PutKeepsSlots(r2, "action_items", items);
  }
}
