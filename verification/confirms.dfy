/** The publisher's outstanding-confirm table (`outstandingConfirms`): an
    ordered map from publish sequence number to message body, filled just
    before each send and emptied by the broker's acknowledgements, singly or
    cumulatively, as the `multiple` flag of AMQP 0-9-1 `basic.ack` /
    `basic.nack` asks (RabbitMQ's publisher-confirms extension). */
module Confirms {

  type Tracker = map<int, seq<bv8>>

  const Empty: Tracker := map[]

  /** `outstandingConfirms.put(seqNo, body)`: the entry for `seqNo` now holds
      `body`, replacing any earlier one; every other entry is as before. */
  function Record(t: Tracker, seqNo: int, body: seq<bv8>): (r: Tracker)
    ensures seqNo in r && r[seqNo] == body
    ensures forall k :: k != seqNo ==> (k in r <==> k in t)
    ensures forall k :: k in t && k != seqNo ==> r[k] == t[k]
  {
    t[seqNo := body]
  }

  /** `outstandingConfirms.remove(tag)`: only `tag` goes. */
  function RemoveOne(t: Tracker, tag: int): (r: Tracker)
    ensures r.Keys == t.Keys - {tag}
    ensures forall k :: k in r ==> r[k] == t[k]
  {
    t - {tag}
  }

  /** `outstandingConfirms.headMap(tag, true).clear()`: every key at most
      `tag` goes, every greater key stays with its body. */
  function RemoveUpTo(t: Tracker, tag: int): (r: Tracker)
    ensures forall k :: k in r <==> k in t && tag < k
    ensures forall k :: k in r ==> r[k] == t[k]
  {
    map k | k in t && tag < k :: t[k]
  }

  /** `cleanupConfirms(deliveryTag, multiple)`. */
  function Cleanup(t: Tracker, deliveryTag: int, multiple: bool): (r: Tracker)
    ensures forall k :: k in r ==> k in t && r[k] == t[k]
    ensures forall k :: k in t && deliveryTag < k ==> k in r
    ensures deliveryTag !in r
    ensures multiple ==> forall k :: k in t && k <= deliveryTag ==> k !in r
    ensures !multiple ==> t.Keys - r.Keys <= {deliveryTag}
  {
    if multiple then RemoveUpTo(t, deliveryTag) else RemoveOne(t, deliveryTag)
  }

  /** Whether an acknowledgement for `deliveryTag` with flag `multiple`
      settles the entry with key `k`. */
  predicate Covers(deliveryTag: int, multiple: bool, k: int) {
    if multiple then k <= deliveryTag else k == deliveryTag
  }

  /** Cleanup removes exactly the covered keys and keeps every other entry
      with its body. */
  lemma CleanupExactly(t: Tracker, deliveryTag: int, multiple: bool)
    ensures forall k :: k in Cleanup(t, deliveryTag, multiple) <==> k in t && !Covers(deliveryTag, multiple, k)
  {
  }

  /** Removing an absent key is a no-op, and removing a key twice is the same
      as removing it once. */
  lemma RemoveOneAbsentAndIdempotent(t: Tracker, tag: int)
    ensures tag !in t ==> RemoveOne(t, tag) == t
    ensures RemoveOne(RemoveOne(t, tag), tag) == RemoveOne(t, tag)
  {
  }

  /** Two cumulative cleanups amount to one up to the larger tag; in
      particular a repeated cumulative cleanup changes nothing. */
  lemma RemoveUpToCompose(t: Tracker, a: int, b: int)
    ensures RemoveUpTo(RemoveUpTo(t, a), b) == RemoveUpTo(t, if a < b then b else a)
  {
  }

  /** What cumulative cleanup removes is a prefix: every removed key is
      smaller than every key kept. */
  lemma RemoveUpToIsPrefix(t: Tracker, tag: int)
    ensures forall k1, k2 :: k1 in t && k1 !in RemoveUpTo(t, tag) && k2 in RemoveUpTo(t, tag) ==> k1 < k2
  {
  }

  /** Record 5, 7 and 9; a cumulative cleanup at 7 leaves only 9 (with its
      body); a single cleanup at 9 empties the table; removing 9 again is
      harmless. */
  lemma RecordThenCleanupScenario(b5: seq<bv8>, b7: seq<bv8>, b9: seq<bv8>)
    ensures var t := Record(Record(Record(Empty, 5, b5), 7, b7), 9, b9);
            var afterAck := Cleanup(t, 7, true);
            && afterAck == map[9 := b9]
            && Cleanup(afterAck, 9, false) == Empty
            && Cleanup(Cleanup(afterAck, 9, false), 9, false) == Empty
  {
    var t := Record(Record(Record(Empty, 5, b5), 7, b7), 9, b9);
    assert Cleanup(t, 7, true).Keys == {9};
  }
}
