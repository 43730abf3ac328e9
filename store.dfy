/**
 * The in-memory receipt store: a map from receipt id to the points the receipt earned.
 * Processing a receipt scores it and records the score under a new id; looking up an id
 * gives back the recorded score, or nothing for an id that was never recorded.
 */
module Store {
  import opened Wrappers
  import opened Scoring

  class Storage {
    /** Points earned, by receipt id. */
    var receipts: map<string, int>

    /** The store the service starts with: no receipts. */
    constructor()
      ensures receipts == map[]
    {
      receipts := map[];
    }

    /** Record `points` under `id`; an id already present has its points replaced. */
    method Put(id: string, points: int)
      modifies this
      ensures receipts == old(receipts)[id := points]
    {
      receipts := receipts[id := points];
    }

    /** The points recorded under `id`, or `None` when no receipt has that id. */
    method Get(id: string) returns (r: Option<int>)
      ensures r.Some? <==> id in receipts
      ensures r.Some? ==> r.value == receipts[id]
    {
      if id in receipts {
        r := Some(receipts[id]);
      } else {
        r := None;
      }
    }
  }

  /**
   * `processReceipt` after decoding: score the receipt and record the score under `id`,
   * the id the service generated for it. All other ids keep their points.
   */
  method ProcessReceipt(store: Storage, receipt: Receipt, id: string) returns (points: int)
    modifies store
    ensures points == Score(receipt)
    ensures store.receipts == old(store.receipts)[id := Score(receipt)]
  {
    points := CalculatePoints(receipt);
    store.Put(id, points);
  }

  /**
   * Two receipts processed under two different ids into a fresh store: each id gives back
   * its own receipt's score, and an id never handed out gives back nothing.
   */
  method ProcessTwoAndLookUp(first: Receipt, second: Receipt, id1: string, id2: string, unknown: string)
    returns (p1: Option<int>, p2: Option<int>, missing: Option<int>)
    requires id1 != id2 && unknown != id1 && unknown != id2
    ensures p1 == Some(Score(first)) && p2 == Some(Score(second))
    ensures missing == None
  {
    var store := new Storage();
    var _ := ProcessReceipt(store, first, id1);
    var _ := ProcessReceipt(store, second, id2);
    p1 := store.Get(id1);
    p2 := store.Get(id2);
    missing := store.Get(unknown);
  }
}
