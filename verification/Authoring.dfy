/** Publishing a name again and again under its lock (internal/authoring/service.go). */
module Authoring {
  import opened Bytes
  import opened LittleEndian
  import opened Record
  import opened Validator

  const MAX_SEQ: uint64 := 0xffff_ffff_ffff_ffff

  /** The signed bytes of a record; signing itself is not modelled. */
  const Signed: FNRecord -> Bytes

  /** A signed record can be read back with its own sequence number. */
  ghost predicate SignsFaithfully() {
    forall r: FNRecord :: Unmarshal(Signed(r)) == Some(Version(r.seqNo, r.eol))
  }

  /** No earlier than the clock, and above the current record. */
  predicate Allowed(s: uint64, wallClock: uint64, current: Option<uint64>) {
    s >= wallClock && (current.Some? ==> s > current.value)
  }

  /** The clock, unless the current record is already there: then one more, as long as there is one. */
  method NextSeq(wallClock: uint64, current: Option<uint64>) returns (r: Option<uint64>)
    ensures r.None? <==> current == Some(MAX_SEQ)
    ensures r.Some? ==>
      Allowed(r.value, wallClock, current) && forall s :: Allowed(s, wallClock, current) ==> r.value <= s
  {
    if current.Some? && current.value >= wallClock {
      if current.value == MAX_SEQ {
        return None;
      }
      return Some(current.value + 1);
    }
    r := Some(wallClock);
  }

  /** The sequence number of the next record. */
  function Successor(wallClock: uint64, current: Option<uint64>): Option<uint64> {
    if current == Some(MAX_SEQ) then None
    else if current.Some? && current.value >= wallClock then Some(current.value + 1) else Some(wallClock)
  }

  /** What the network holds for each name. */
  type Store = map<Bytes, Bytes>

  function Held(dht: Store, name: Bytes): Option<Bytes> {
    if name in dht then Some(dht[name]) else None
  }

  function CurrentSeq(dht: Store, name: Bytes): Option<uint64> {
    match Held(dht, name)
    case None => None
    case Some(v) => match Unmarshal(v) case None => None case Some(version) => Some(version.seqNo)
  }

  /** Storing a value keeps whichever of it and the held value wins. */
  function Stored(dht: Store, name: Bytes, v: Bytes): Store {
    match Merge(Held(dht, name), Some(v)) case None => dht case Some(w) => dht[name := w]
  }

  /** Either this node publishes with a reading of its clock, or another node stores a value of its own. */
  datatype Event = Publish(draft: FNRecord, clock: uint64) | Foreign(name: Bytes, value: Bytes)

  function Published(dht: Store, e: Event): Option<FNRecord>
    requires e.Publish?
  {
    match Successor(e.clock, CurrentSeq(dht, e.draft.name))
    case None => None
    case Some(s) => Some(e.draft.(seqNo := s))
  }

  function After(dht: Store, e: Event): Store {
    match e
    case Foreign(name, value) => Stored(dht, name, value)
    case Publish(draft, clock) =>
      match Published(dht, e) case None => dht case Some(r) => Stored(dht, r.name, Signed(r))
  }

  class Service {
    var dht: Store

    constructor ()
      ensures dht == map[]
    {
      dht := map[];
    }

    /** Resolve, choose the sequence, sign, publish; an unreachable network publishes nothing. */
    method Publish(draft: FNRecord, clock: uint64, reachable: bool) returns (r: Option<FNRecord>)
      modifies this
      ensures r == if reachable then Published(old(dht), Event.Publish(draft, clock)) else None
      ensures dht == if reachable then After(old(dht), Event.Publish(draft, clock)) else old(dht)
    {
      if !reachable {
        return None;
      }
      var current := CurrentSeq(dht, draft.name);
      var s := NextSeq(clock, current);
      if s.None? {
        return None;
      }
      SuccessorIsNext(clock, current, s.value);
      r := Some(draft.(seqNo := s.value));
      dht := Stored(dht, draft.name, Signed(r.value));
    }
  }

  lemma SuccessorIsNext(clock: uint64, current: Option<uint64>, s: uint64)
    requires current != Some(MAX_SEQ) && Allowed(s, clock, current)
    requires forall t :: Allowed(t, clock, current) ==> s <= t
    ensures Successor(clock, current) == Some(s)
  {
    assert Allowed(Successor(clock, current).value, clock, current);
  }

  /** A freshly published record beats the one it found, so it is what the network then holds. */
  lemma PublishTakesEffect(dht: Store, e: Event)
    requires SignsFaithfully() && e.Publish? && Published(dht, e).Some?
    ensures Held(After(dht, e), e.draft.name) == Some(Signed(Published(dht, e).value))
    ensures CurrentSeq(After(dht, e), e.draft.name) == Some(Published(dht, e).value.seqNo)
    ensures CurrentSeq(dht, e.draft.name).Some? ==> Published(dht, e).value.seqNo > CurrentSeq(dht, e.draft.name).value
  {
    assert Unmarshal(Signed(Published(dht, e).value)).Some?;
  }

  /** `s` is at least as far as `t`. */
  predicate AtLeast(s: Option<uint64>, t: Option<uint64>) {
    t.Some? ==> s.Some? && s.value >= t.value
  }

  /** Nothing that happens takes a name back to an earlier sequence. */
  lemma SeqNeverFalls(dht: Store, e: Event, name: Bytes)
    requires SignsFaithfully()
    ensures AtLeast(CurrentSeq(After(dht, e), name), CurrentSeq(dht, name))
  {
  }

  ghost predicate Run(ss: seq<Store>, es: seq<Event>) {
    |ss| == |es| + 1 && forall i :: 0 <= i < |es| ==> ss[i + 1] == After(ss[i], es[i])
  }

  lemma {:induction false} SeqNeverFallsAlong(ss: seq<Store>, es: seq<Event>, i: nat, j: nat, name: Bytes)
    requires Run(ss, es) && SignsFaithfully() && i <= j < |ss|
    ensures AtLeast(CurrentSeq(ss[j], name), CurrentSeq(ss[i], name))
    decreases j
  {
    if i < j {
      SeqNeverFallsAlong(ss, es, i, j - 1, name);
      SeqNeverFalls(ss[j - 1], es[j - 1], name);
    }
  }

  /** In any run, with any clock readings and any values stored by others in between, the records published under
      one name carry strictly increasing sequence numbers. */
  lemma PublishedSeqsIncrease(ss: seq<Store>, es: seq<Event>, i: nat, j: nat)
    requires Run(ss, es) && SignsFaithfully() && i < j < |es|
    requires es[i].Publish? && es[j].Publish? && es[i].draft.name == es[j].draft.name
    requires Published(ss[i], es[i]).Some? && Published(ss[j], es[j]).Some?
    ensures Published(ss[i], es[i]).value.seqNo < Published(ss[j], es[j]).value.seqNo
  {
    PublishTakesEffect(ss[i], es[i]);
    SeqNeverFallsAlong(ss, es, i + 1, j, es[i].draft.name);
    PublishTakesEffect(ss[j], es[j]);
  }

  /** The number published is the clock's, or one more than the current record's if that is greater; there is none only
      after the last one. Nothing but the number of the draft changes, and no other name. */
  lemma PublishedExactly(dht: Store, e: Event)
    requires e.Publish?
    ensures var current, r := CurrentSeq(dht, e.draft.name), Published(dht, e);
      && (r.None? <==> current == Some(0xffff_ffff_ffff_ffff))
      && (r.Some? && current.None? ==> r.value == e.draft.(seqNo := e.clock))
      && (r.Some? && current.Some? ==>
            r.value == e.draft.(seqNo := if e.clock > current.value then e.clock else current.value + 1))
    ensures forall name :: name != e.draft.name ==> Held(After(dht, e), name) == Held(dht, name)
  {
  }
}
