/** Choosing between competing values of one name (internal/record/validator.go). */
module Validator {
  import opened Bytes
  import opened LittleEndian
  import opened Ordering

  /** The fields that decide a conflict. */
  datatype Version = Version(seqNo: uint64, eol: int64)

  /** Unmarshalling a stored value; nothing is assumed of it. */
  const Unmarshal: Bytes -> Option<Version>

  /** Higher sequence, then later expiry, then larger bytes. */
  predicate Beats(x: Bytes, y: Bytes)
    requires Unmarshal(x).Some? && Unmarshal(y).Some?
  {
    var c, d := Unmarshal(x).value, Unmarshal(y).value;
    if c.seqNo != d.seqNo then c.seqNo > d.seqNo
    else if c.eol != d.eol then c.eol > d.eol
    else Before(y, x)
  }

  lemma BeatsTotal(x: Bytes, y: Bytes)
    requires Unmarshal(x).Some? && Unmarshal(y).Some?
    ensures x == y || Beats(x, y) || Beats(y, x)
    ensures !(Beats(x, y) && Beats(y, x)) && !Beats(x, x)
  {
    BeforeTotal(x, y);
    BeforeStrict(x);
    if Before(x, y) && Before(y, x) {
      BeforeTransitive(x, y, x);
    }
  }

  lemma BeatsTransitive(x: Bytes, y: Bytes, z: Bytes)
    requires Unmarshal(x).Some? && Unmarshal(y).Some? && Unmarshal(z).Some?
    requires Beats(x, y) && Beats(y, z)
    ensures Beats(x, z)
  {
    if Unmarshal(x).value == Unmarshal(y).value == Unmarshal(z).value {
      BeforeTransitive(z, y, x);
    }
  }

  // ---------------------------------------------------------------- a conflict of many values

  /** Value `v` is among `vals`, decodes, and no other decodable value beats it. */
  ghost predicate Best(vals: seq<Bytes>, v: Bytes) {
    && v in vals && Unmarshal(v).Some?
    && forall w :: w in vals && Unmarshal(w).Some? ==> w == v || Beats(v, w)
  }

  /** The index of the winning value; none when nothing decodes. */
  method Select(vals: seq<Bytes>) returns (best: Option<nat>)
    ensures best.None? <==> forall v :: v in vals ==> Unmarshal(v).None?
    ensures best.Some? ==>
      best.value < |vals| && Best(vals, vals[best.value]) && vals[best.value] !in vals[..best.value]
  {
    best := None;
    for i := 0 to |vals|
      invariant best.None? ==> forall k :: 0 <= k < i ==> Unmarshal(vals[k]).None?
      invariant best.Some? ==> best.value < i && Unmarshal(vals[best.value]).Some?
      invariant best.Some? ==> vals[best.value] !in vals[..best.value]
      invariant best.Some? ==> forall k :: 0 <= k < i && Unmarshal(vals[k]).Some? ==>
                  vals[k] == vals[best.value] || Beats(vals[best.value], vals[k])
    {
      var candidate := Unmarshal(vals[i]);
      if candidate.None? {
        continue;
      }
      if best.None? || Beats(vals[i], vals[best.value]) {
        Overtakes(vals, best, i);
        best := Some(i);
      } else {
        BeatsTotal(vals[i], vals[best.value]);
      }
    }
  }

  lemma Overtakes(vals: seq<Bytes>, best: Option<nat>, i: nat)
    requires i < |vals| && Unmarshal(vals[i]).Some?
    requires best.None? ==> forall k :: 0 <= k < i ==> Unmarshal(vals[k]).None?
    requires best.Some? ==> best.value < i && Unmarshal(vals[best.value]).Some? && Beats(vals[i], vals[best.value])
    requires best.Some? ==> forall k :: 0 <= k < i && Unmarshal(vals[k]).Some? ==>
               vals[k] == vals[best.value] || Beats(vals[best.value], vals[k])
    ensures forall k :: 0 <= k < i && Unmarshal(vals[k]).Some? ==> Beats(vals[i], vals[k])
    ensures vals[i] !in vals[..i]
  {
    forall k | 0 <= k < i && Unmarshal(vals[k]).Some? ensures Beats(vals[i], vals[k]) {
      if vals[k] != vals[best.value] {
        BeatsTransitive(vals[i], vals[best.value], vals[k]);
      }
    }
    forall k | 0 <= k < i ensures vals[k] != vals[i] {
      BeatsTotal(vals[i], vals[i]);
    }
  }

  // ---------------------------------------------------------------- replicas converge

  /** Two replicas settle on one value. */
  function Merge(a: Option<Bytes>, b: Option<Bytes>): Option<Bytes> {
    if a.None? || Unmarshal(a.value).None? then (if b.None? || Unmarshal(b.value).None? then None else b)
    else if b.None? || Unmarshal(b.value).None? then a
    else if Beats(b.value, a.value) then b else a
  }

  /** The value a list settles on, one at a time. */
  function Winner(vals: seq<Bytes>): Option<Bytes> {
    if vals == [] then None else Merge(Winner(vals[..|vals| - 1]), Some(vals[|vals| - 1]))
  }

  lemma MergeCommutes(a: Option<Bytes>, b: Option<Bytes>)
    ensures Merge(a, b) == Merge(b, a)
  {
    if a.Some? && b.Some? && Unmarshal(a.value).Some? && Unmarshal(b.value).Some? {
      BeatsTotal(a.value, b.value);
    }
  }

  lemma MergeAssociates(a: Option<Bytes>, b: Option<Bytes>, c: Option<Bytes>)
    ensures Merge(Merge(a, b), c) == Merge(a, Merge(b, c))
  {
    if a.Some? && b.Some? && c.Some?
       && Unmarshal(a.value).Some? && Unmarshal(b.value).Some? && Unmarshal(c.value).Some? {
      var x, y, z := a.value, b.value, c.value;
      BeatsTotal(x, y);
      BeatsTotal(y, z);
      BeatsTotal(x, z);
      if Beats(y, x) && Beats(z, y) {
        BeatsTransitive(z, y, x);
      } else if Beats(x, y) && Beats(y, z) {
        BeatsTransitive(x, y, z);
      }
    }
  }

  lemma MergeIdempotent(a: Option<Bytes>)
    ensures Merge(a, a) == if a.Some? && Unmarshal(a.value).Some? then a else None
  {
    if a.Some? && Unmarshal(a.value).Some? {
      BeatsTotal(a.value, a.value);
    }
  }

  /** The value settled on is the best of them all. */
  lemma {:induction false} WinnerIsBest(vals: seq<Bytes>)
    ensures Winner(vals).None? <==> forall v :: v in vals ==> Unmarshal(v).None?
    ensures Winner(vals).Some? ==> Best(vals, Winner(vals).value)
  {
    if vals != [] {
      var init, v := vals[..|vals| - 1], vals[|vals| - 1];
      assert vals == init + [v];
      WinnerIsBest(init);
      if Unmarshal(v).Some? && Winner(init).Some? {
        BeatsTotal(v, Winner(init).value);
        if Beats(v, Winner(init).value) {
          forall w | w in init && Unmarshal(w).Some? ensures Beats(v, w) {
            if w != Winner(init).value {
              BeatsTransitive(v, Winner(init).value, w);
            }
          }
        }
      }
    }
  }

  lemma BestUnique(a: seq<Bytes>, b: seq<Bytes>, x: Bytes, y: Bytes)
    requires Best(a, x) && Best(b, y) && forall v :: v in a <==> v in b
    ensures x == y
  {
    BeatsTotal(x, y);
  }

  /** Replicas that have seen the same values in any order, any number of times, select the same one. */
  lemma ReplicasConverge(a: seq<Bytes>, b: seq<Bytes>)
    requires forall v :: v in a <==> v in b
    ensures Winner(a) == Winner(b)
  {
    WinnerIsBest(a);
    WinnerIsBest(b);
    if Winner(a).Some? && Winner(b).Some? {
      BestUnique(a, b, Winner(a).value, Winner(b).value);
    }
  }

  /** Select finds what pairwise merging settles on. */
  lemma SelectIsWinner(vals: seq<Bytes>, v: Bytes)
    ensures Best(vals, v) <==> Winner(vals) == Some(v)
  {
    WinnerIsBest(vals);
    if Best(vals, v) && Winner(vals).Some? {
      BestUnique(vals, vals, v, Winner(vals).value);
    }
  }

  /** Field by field: no decodable value has a later sequence than the one settled on, none of that sequence a later
      expiry, and of those with both the others' bytes are smaller at the first difference. */
  lemma BestExactly(vals: seq<Bytes>, v: Bytes)
    ensures Winner(vals) == Some(v) <==>
      && v in vals && Unmarshal(v).Some?
      && (forall w :: w in vals && Unmarshal(w).Some? ==>
            var c, d := Unmarshal(w).value, Unmarshal(v).value;
            && c.seqNo <= d.seqNo
            && (c.seqNo == d.seqNo ==> c.eol <= d.eol)
            && (c == d ==> w == v || exists k :: SmallerAt(w, v, k)))
  {
    SelectIsWinner(vals, v);
    forall w {
      BeforeExactly(w, v);
    }
  }
}
