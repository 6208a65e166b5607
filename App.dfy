// The webhook endpoint of app.py: Telegram may deliver an update more than
// once, so the ids of processed updates are kept in a set, which is emptied
// once it holds more than 20 ids. Feeding the update to the dispatcher is
// recorded as the list of updates dispatched.

module App {
  import opened Py

  /** The set is cleared once it grows beyond this many ids. */
  const MaxRemembered := 20

  /** `{"ok": True}`. */
  const OkReply: JValue := JObj(["ok"], map["ok" := JBool(true)])

  /** Whether `v` can be looked up in a set: lists and dicts are unhashable. */
  predicate Hashable(v: JValue) {
    !v.JArr? && !v.JObj?
  }

  /** The set after a new id is recorded: added, then cleared when it has grown
      past `MaxRemembered`. */
  function Remember(ids: set<JValue>, id: JValue): (r: set<JValue>)
    ensures r == {} || r == ids + {id}
    ensures |r| <= MaxRemembered
  {
    var added := ids + {id};
    if |added| > MaxRemembered then {} else added
  }

  /** Below the bound, recording an id keeps it and clears nothing. */
  lemma RememberKeeps(ids: set<JValue>, id: JValue)
    requires |ids| < MaxRemembered
    ensures Remember(ids, id) == ids + {id}
  {
    assert |ids + {id}| <= |ids| + 1 by {
      if id in ids {
        assert ids + {id} == ids;
      }
    }
  }

  /** The id that takes a full set past the bound is forgotten with all the
      others. */
  lemma ClearForgets(ids: set<JValue>, id: JValue)
    requires |ids| == MaxRemembered && id !in ids
    ensures Remember(ids, id) == {}
  {
    assert |ids + {id}| == |ids| + 1;
  }

  /** The set after a run of new-or-repeated ids, as `bot_webhook` leaves it. */
  function Replay(ids: set<JValue>, deliveries: seq<JValue>): set<JValue>
    decreases |deliveries|
  {
    if deliveries == [] then ids
    else
      var last := deliveries[|deliveries| - 1];
      var before := Replay(ids, deliveries[..|deliveries| - 1]);
      if last in before then before else Remember(before, last)
  }

  /** Starting from the empty set, no run of deliveries leaves more than
      `MaxRemembered` ids. */
  lemma {:induction false} ReplayBounded(deliveries: seq<JValue>)
    ensures |Replay({}, deliveries)| <= MaxRemembered
    decreases |deliveries|
  {
    if deliveries != [] {
      ReplayBounded(deliveries[..|deliveries| - 1]);
    }
  }

  /** While the set is below the bound, an id just delivered is remembered, so
      delivering it again straight away is ignored. */
  lemma RedeliveryIsIgnored(ids: set<JValue>, deliveries: seq<JValue>, id: JValue)
    requires |Replay(ids, deliveries)| < MaxRemembered
    ensures id in Replay(ids, deliveries + [id])
  {
    var before := Replay(ids, deliveries);
    assert (deliveries + [id])[..|deliveries|] == deliveries;
    if id !in before {
      RememberKeeps(before, id);
    }
  }

  /** The webhook's state: the module-level `processed_update_ids`, and the
      updates handed to `dp.feed_update` so far. */
  class Webhook {
    var processed: set<JValue>
    var dispatched: seq<JValue>

    predicate Valid()
      reads this
    {
      |processed| <= MaxRemembered
    }

    /** Module start-up: `processed_update_ids = set()`. */
    constructor ()
      ensures processed == {} && dispatched == []
      ensures Valid()
    {
      processed := {};
      dispatched := [];
    }

    /** `bot_webhook` on the JSON body `update`. A body without `update_id`
        raises KeyError and an unhashable id TypeError, with nothing changed. A
        known id is answered without dispatch. A new id is remembered (the set
        being cleared when it grows past the bound) and its update dispatched
        once. */
    method Handle(update: JValue) returns (r: Result<JValue>)
      modifies this
      ensures var id := Subscript(update, "update_id");
              if id.Err? then r == Err(id.exc) && unchanged(this)
              else if !Hashable(id.value) then r == Err(TypeError) && unchanged(this)
              else if id.value in old(processed) then r == Ok(OkReply) && unchanged(this)
              else r == Ok(OkReply) && processed == Remember(old(processed), id.value) &&
                   dispatched == old(dispatched) + [update]
      ensures old(Valid()) ==> Valid()
    {
      var id := Subscript(update, "update_id");
      if id.Err? {
        return Err(id.exc);
      }
      if !Hashable(id.value) {
        return Err(TypeError);
      }
      if id.value in processed {
        return Ok(OkReply);
      }
      processed := processed + {id.value};
      if |processed| > MaxRemembered {
        processed := {};
      }
      dispatched := dispatched + [update];
      return Ok(OkReply);
    }
  }
}
