/** The bytes a name record's signature covers (internal/record/record.go). Strings are byte sequences. */
module Record {
  import opened Bytes
  import opened LittleEndian
  import opened Ordering

  datatype RR = RR(rtype: Bytes, value: Bytes, ttl: uint32)

  datatype FNRecord = FNRecord(name: Bytes, records: seq<RR>, seqNo: uint64, eol: int64, pubKey: Bytes)

  // ---------------------------------------------------------------- the record order

  /** By type, then by value. */
  predicate Sooner(a: RR, b: RR) {
    if a.rtype != b.rtype then Before(a.rtype, b.rtype) else Before(a.value, b.value)
  }

  predicate SameKey(a: RR, b: RR) {
    a.rtype == b.rtype && a.value == b.value
  }

  lemma SoonerTotal(a: RR, b: RR)
    ensures SameKey(a, b) || Sooner(a, b) || Sooner(b, a)
    ensures !(Sooner(a, b) && Sooner(b, a)) && !(SameKey(a, b) && Sooner(a, b))
  {
    Asymmetric(a.rtype, b.rtype);
    Asymmetric(a.value, b.value);
  }

  lemma Asymmetric(a: Bytes, b: Bytes)
    ensures a == b || Before(a, b) || Before(b, a)
    ensures !(Before(a, b) && Before(b, a)) && !(a == b && Before(a, b))
  {
    BeforeTotal(a, b);
    BeforeStrict(a);
    if Before(a, b) && Before(b, a) {
      BeforeTransitive(a, b, a);
    }
  }

  lemma SoonerTransitive(a: RR, b: RR, c: RR)
    requires Sooner(a, b) && Sooner(b, c)
    ensures Sooner(a, c)
  {
    Asymmetric(a.rtype, b.rtype);
    Asymmetric(a.rtype, c.rtype);
    Asymmetric(b.rtype, c.rtype);
    if a.rtype == b.rtype == c.rtype {
      BeforeTransitive(a.value, b.value, c.value);
    } else if a.rtype != b.rtype && b.rtype != c.rtype {
      BeforeTransitive(a.rtype, b.rtype, c.rtype);
      Asymmetric(a.rtype, b.rtype);
    }
  }

  /** Each record strictly after the one before it. */
  ghost predicate Ordered(rs: seq<RR>) {
    forall i, j :: 0 <= i < j < |rs| ==> Sooner(rs[i], rs[j])
  }

  ghost predicate DistinctKeys(rs: seq<RR>) {
    forall i, j :: 0 <= i < j < |rs| ==> !SameKey(rs[i], rs[j])
  }

  function InsertRR(r: RR, rs: seq<RR>): (out: seq<RR>)
    ensures |out| == |rs| + 1 && forall x :: x in out <==> x == r || x in rs
  {
    if rs == [] || Sooner(r, rs[0]) then [r] + rs
    else
      assert rs == [rs[0]] + rs[1..];
      [rs[0]] + InsertRR(r, rs[1..])
  }

  function SortRRs(rs: seq<RR>): (out: seq<RR>)
    ensures |out| == |rs| && forall x :: x in out <==> x in rs
  {
    if rs == [] then []
    else
      assert rs == [rs[0]] + rs[1..];
      InsertRR(rs[0], SortRRs(rs[1..]))
  }

  lemma {:induction false} InsertKeepsOrder(r: RR, rs: seq<RR>)
    requires Ordered(rs) && forall x :: x in rs ==> !SameKey(r, x)
    ensures Ordered(InsertRR(r, rs))
  {
    if rs != [] {
      SoonerTotal(r, rs[0]);
      if Sooner(r, rs[0]) {
        FrontOrdered(r, rs);
      } else {
        InsertKeepsOrder(r, rs[1..]);
        FrontOrdered(rs[0], InsertRR(r, rs[1..]));
      }
    }
  }

  lemma FrontOrdered(r: RR, rs: seq<RR>)
    requires Ordered(rs) && (rs != [] ==> Sooner(r, rs[0]))
    ensures Ordered([r] + rs)
  {
    forall j | 0 <= j < |rs| ensures Sooner(r, rs[j]) {
      if j > 0 {
        SoonerTransitive(r, rs[0], rs[j]);
      }
    }
  }

  lemma {:induction false} SortOrders(rs: seq<RR>)
    requires DistinctKeys(rs)
    ensures Ordered(SortRRs(rs))
  {
    if rs != [] {
      SortOrders(rs[1..]);
      InsertKeepsOrder(rs[0], SortRRs(rs[1..]));
    }
  }

  /** Only one strictly ordered list has given elements. */
  lemma {:induction false} OrderedUnique(a: seq<RR>, b: seq<RR>)
    requires Ordered(a) && Ordered(b) && forall x :: x in a <==> x in b
    ensures a == b
  {
    if a == [] || b == [] {
      EmptyTogether(a, b);
    } else {
      assert a[0] in b && b[0] in a;
      SameFirst(a, b);
      assert a == [a[0]] + a[1..] && b == [b[0]] + b[1..];
      forall x ensures x in a[1..] <==> x in b[1..] {
        FirstOnce(a, x);
        FirstOnce(b, x);
      }
      OrderedUnique(a[1..], b[1..]);
    }
  }

  lemma EmptyTogether(a: seq<RR>, b: seq<RR>)
    requires forall x :: x in a <==> x in b
    ensures a == [] <==> b == []
  {
    assert (set x | x in a) == (set x | x in b);
    assert a != [] ==> a[0] in (set x | x in a);
    assert b != [] ==> b[0] in (set x | x in b);
  }

  lemma SameFirst(a: seq<RR>, b: seq<RR>)
    requires a != [] && b != [] && Ordered(a) && Ordered(b) && a[0] in b && b[0] in a
    ensures a[0] == b[0]
  {
    SoonerTotal(a[0], b[0]);
  }

  lemma FirstOnce(a: seq<RR>, x: RR)
    requires a != [] && Ordered(a)
    ensures x in a[1..] <==> x in a && x != a[0]
  {
    assert a == [a[0]] + a[1..];
    SoonerTotal(a[0], a[0]);
  }

  /** Sorting forgets the order in which records with distinct keys were listed. */
  lemma SortIgnoresOrder(a: seq<RR>, b: seq<RR>)
    requires DistinctKeys(a) && DistinctKeys(b) && forall x :: x in a <==> x in b
    ensures SortRRs(a) == SortRRs(b)
  {
    SortOrders(a);
    SortOrders(b);
    OrderedUnique(SortRRs(a), SortRRs(b));
  }

  // ---------------------------------------------------------------- the bytes

  function BE(n: nat, k: nat): (r: Bytes)
    ensures |r| == k
  {
    if k == 0 then [] else BE(n / 256, k - 1) + [n % 256]
  }

  function Bound(k: nat): nat {
    if k == 0 then 1 else 256 * Bound(k - 1)
  }

  lemma {:induction false} BEInjective(a: nat, b: nat, k: nat)
    requires a < Bound(k) && b < Bound(k) && BE(a, k) == BE(b, k)
    ensures a == b
  {
    if k > 0 {
      var x, y := BE(a, k), BE(b, k);
      assert x[..k - 1] == BE(a / 256, k - 1) && y[..k - 1] == BE(b / 256, k - 1);
      assert x[k - 1] == a % 256 && y[k - 1] == b % 256;
      BEInjective(a / 256, b / 256, k - 1);
    }
  }

  lemma Bounds()
    ensures Bound(4) == 0x1_0000_0000 && Bound(8) == 0x1_0000_0000_0000_0000
  {
    assert Bound(2) == 65536 && Bound(4) == 65536 * Bound(2);
    assert Bound(6) == 65536 * Bound(4) && Bound(8) == 65536 * Bound(6);
  }

  function RRBytes(r: RR): Bytes {
    r.rtype + [0] + r.value + [0] + BE(r.ttl, 4)
  }

  function RRList(rs: seq<RR>): Bytes {
    if rs == [] then [] else RRBytes(rs[0]) + RRList(rs[1..])
  }

  function Trailer(r: FNRecord): Bytes {
    BE(r.seqNo, 8) + BE(ToUnsigned(r.eol), 8) + r.pubKey
  }

  function Canonical(r: FNRecord): Bytes {
    r.name + [0] + RRList(SortRRs(r.records)) + Trailer(r)
  }

  /** Written field by field, the records sorted first. */
  method CanonicalBytes(r: FNRecord) returns (b: Bytes)
    ensures b == Canonical(r)
  {
    b := r.name + [0];
    var recs := SortRRs(r.records);
    for i := 0 to |recs|
      invariant b + RRList(recs[i..]) == r.name + [0] + RRList(recs)
    {
      ghost var before := b;
      b := b + recs[i].rtype + [0];
      b := b + recs[i].value + [0];
      b := b + BE(recs[i].ttl, 4);
      assert recs[i..][1..] == recs[i + 1..];
      assert b == before + RRBytes(recs[i]);
    }
    assert recs[|recs|..] == [] && b + [] == b;
    b := b + BE(r.seqNo, 8);
    b := b + BE(ToUnsigned(r.eol), 8);
    b := b + r.pubKey;
  }

  /** The order in which records with distinct keys are listed does not change what is signed. */
  lemma CanonicalIgnoresOrder(a: FNRecord, b: FNRecord)
    requires a.(records := b.records) == b && DistinctKeys(a.records) && DistinctKeys(b.records)
    requires forall x :: x in a.records <==> x in b.records
    ensures Canonical(a) == Canonical(b)
  {
    SortIgnoresOrder(a.records, b.records);
  }

  // ---------------------------------------------------------------- nothing else is signed the same

  ghost predicate NulFree(s: Bytes) {
    0 !in s
  }

  ghost predicate Clean(rs: seq<RR>) {
    forall r :: r in rs ==> NulFree(r.rtype) && NulFree(r.value)
  }

  /** Up to its first NUL, a text is determined by the bytes that begin with it. */
  lemma NulEnds(a: Bytes, x: Bytes, b: Bytes, y: Bytes)
    requires NulFree(a) && NulFree(b) && a + [0] + x == b + [0] + y
    ensures a == b && x == y
  {
    var k := if |a| <= |b| then |a| else |b|;
    FirstNul(a, x, k);
    FirstNul(b, y, k);
    assert (a + [0] + x)[..|a|] == a && (b + [0] + y)[..|b|] == b;
    assert (a + [0] + x)[|a| + 1..] == x && (b + [0] + y)[|b| + 1..] == y;
  }

  lemma FirstNul(a: Bytes, x: Bytes, k: nat)
    requires NulFree(a) && k <= |a|
    ensures (a + [0] + x)[k] == 0 <==> k == |a|
  {
    assert k < |a| ==> (a + [0] + x)[k] == a[k] && a[k] in a;
  }

  lemma FirstRR(r: RR, x: Bytes, s: RR, y: Bytes)
    requires Clean([r]) && Clean([s]) && RRBytes(r) + x == RRBytes(s) + y
    ensures r == s && x == y
  {
    assert r in [r] && s in [s];
    var restR, restS := r.value + [0] + (BE(r.ttl, 4) + x), s.value + [0] + (BE(s.ttl, 4) + y);
    assert RRBytes(r) + x == r.rtype + [0] + restR && RRBytes(s) + y == s.rtype + [0] + restS;
    NulEnds(r.rtype, restR, s.rtype, restS);
    NulEnds(r.value, BE(r.ttl, 4) + x, s.value, BE(s.ttl, 4) + y);
    assert BE(r.ttl, 4) == (BE(r.ttl, 4) + x)[..4] && BE(s.ttl, 4) == (BE(s.ttl, 4) + y)[..4];
    assert x == (BE(r.ttl, 4) + x)[4..] && y == (BE(s.ttl, 4) + y)[4..];
    Bounds();
    BEInjective(r.ttl, s.ttl, 4);
  }

  lemma EmptyRRList(a: seq<RR>)
    ensures RRList(a) == [] <==> a == []
  {
    assert a != [] ==> |RRBytes(a[0])| > 0;
  }

  lemma {:induction false} RRListInjective(a: seq<RR>, b: seq<RR>)
    requires Clean(a) && Clean(b) && RRList(a) == RRList(b)
    ensures a == b
  {
    EmptyRRList(a);
    EmptyRRList(b);
    if a != [] && b != [] {
      FirstRR(a[0], RRList(a[1..]), b[0], RRList(b[1..]));
      RRListInjective(a[1..], b[1..]);
      assert a == [a[0]] + a[1..] && b == [b[0]] + b[1..];
    }
  }

  lemma TrailerInjective(a: FNRecord, b: FNRecord)
    requires |a.pubKey| == |b.pubKey| && Trailer(a) == Trailer(b)
    ensures a.seqNo == b.seqNo && a.eol == b.eol && a.pubKey == b.pubKey
  {
    var s, t := Trailer(a), Trailer(b);
    assert s[..8] == BE(a.seqNo, 8) && t[..8] == BE(b.seqNo, 8);
    assert s[8..16] == BE(ToUnsigned(a.eol), 8) && t[8..16] == BE(ToUnsigned(b.eol), 8);
    assert s[16..] == a.pubKey && t[16..] == b.pubKey;
    Bounds();
    BEInjective(a.seqNo, b.seqNo, 8);
    BEInjective(ToUnsigned(a.eol), ToUnsigned(b.eol), 8);
  }

  lemma SplitEnd(x: Bytes, s: Bytes, y: Bytes, t: Bytes)
    requires x + s == y + t && |s| == |t|
    ensures x == y && s == t
  {
    assert x == (x + s)[..|x|] && y == (y + t)[..|y|];
    assert s == (x + s)[|x|..] && t == (y + t)[|y|..];
  }

  /** What is signed determines the record up to the order of its resource records, for NUL-free texts and keys of
      one length. */
  lemma CanonicalInjective(a: FNRecord, b: FNRecord)
    requires NulFree(a.name) && NulFree(b.name) && Clean(a.records) && Clean(b.records)
    requires |a.pubKey| == |b.pubKey| && Canonical(a) == Canonical(b)
    ensures a.(records := b.records) == b && forall x :: x in a.records <==> x in b.records
  {
    var x, y := RRList(SortRRs(a.records)), RRList(SortRRs(b.records));
    SplitEnd(a.name + [0] + x, Trailer(a), b.name + [0] + y, Trailer(b));
    TrailerInjective(a, b);
    NulEnds(a.name, x, b.name, y);
    RRListInjective(SortRRs(a.records), SortRRs(b.records));
  }

  /** For such records the bytes agree exactly when the fields do and the resource records are the same ones, when no
      two of them share type and value. */
  lemma CanonicalExactly(a: FNRecord, b: FNRecord)
    requires NulFree(a.name) && NulFree(b.name) && Clean(a.records) && Clean(b.records)
    requires |a.pubKey| == |b.pubKey| && DistinctKeys(a.records) && DistinctKeys(b.records)
    ensures Canonical(a) == Canonical(b)
       <==> a.(records := b.records) == b && forall x :: x in a.records <==> x in b.records
  {
    hide Canonical, DistinctKeys, Clean;
    if Canonical(a) == Canonical(b) {
      CanonicalInjective(a, b);
    } else if a.(records := b.records) == b && forall x :: x in a.records <==> x in b.records {
      CanonicalIgnoresOrder(a, b);
      assert false;
    }
  }

  lemma SortedPair(a: RR, b: RR)
    requires Sooner(a, b)
    ensures SortRRs([a, b]) == [a, b] && SortRRs([a]) == [a]
  {
    assert [a, b][1..] == [b] && [b][1..] == [] && [a][1..] == [];
    assert SortRRs([b]) == [b];
  }

  lemma PairBytes(a: RR, b: RR)
    ensures RRList([a, b]) == RRBytes(a) + RRBytes(b) && RRList([a]) == RRBytes(a)
  {
    assert [a, b][1..] == [b] && [b][1..] == [] && [a][1..] == [];
    assert RRList([b]) == RRBytes(b) + [];
    assert RRList([a]) == RRBytes(a) + [];
  }

  /** One record that spells two: the first one's value runs on through its TTL into the second. */
  function RunTogether(a: RR, b: RR): RR {
    RR(a.rtype, a.value + [0] + BE(a.ttl, 4) + b.rtype + [0] + b.value, b.ttl)
  }

  lemma RunOn(a: RR, b: RR)
    ensures RRBytes(a) + RRBytes(b) == RRBytes(RunTogether(a, b))
  {
    hide BE;
    var z, y := BE(a.ttl, 4), BE(b.ttl, 4);
    assert RRBytes(a) + RRBytes(b) == a.rtype + [0] + (a.value + [0] + z + b.rtype + [0] + b.value) + [0] + y;
  }

  /** With a NUL in a value, two records sign the same bytes as one. */
  lemma NulConfuses(r: FNRecord, a: RR, b: RR)
    requires Sooner(a, b)
    ensures Canonical(r.(records := [a, b])) == Canonical(r.(records := [RunTogether(a, b)]))
  {
    hide SortRRs, RRList, RRBytes, BE;
    SortedPair(a, b);
    SortedOne(RunTogether(a, b));
    PairBytes(a, b);
    PairBytes(RunTogether(a, b), b);
    RunOn(a, b);
  }

  lemma SortedOne(a: RR)
    ensures SortRRs([a]) == [a]
  {
    assert [a][1..] == [];
  }

  const MAX_RRS: nat := 32
  const MAX_LABEL_LEN: nat := 190
  const MAX_TXT_LEN: nat := 255
  const MAX_DNS_NAME_LEN: nat := 253
  const TYPE_A: Bytes := [0x41]
  const TYPE_AAAA: Bytes := [0x41, 0x41, 0x41, 0x41]
  const TYPE_TXT: Bytes := [0x54, 0x58, 0x54]
  const TYPE_CNAME: Bytes := [0x43, 0x4e, 0x41, 0x4d, 0x45]
  const TYPE_CONTENT: Bytes := [0x43, 0x4f, 0x4e, 0x54, 0x45, 0x4e, 0x54]

  /** The parsers of addresses and content hashes; nothing is assumed of them. */
  const IsIPv4: Bytes -> bool
  const IsIPv6: Bytes -> bool
  const IsContentName: Bytes -> bool

  predicate ValidRR(r: RR) {
    if r.rtype == TYPE_A then IsIPv4(r.value)
    else if r.rtype == TYPE_AAAA then IsIPv6(r.value)
    else if r.rtype == TYPE_CNAME then r.value != [] && |r.value| <= MAX_DNS_NAME_LEN
    else if r.rtype == TYPE_CONTENT then IsContentName(r.value)
    else r.rtype == TYPE_TXT && |r.value| <= MAX_TXT_LEN
  }

  predicate ValidRecords(r: FNRecord) {
    0 < |r.records| <= MAX_RRS && |r.name| <= MAX_LABEL_LEN && forall rr :: rr in r.records ==> ValidRR(rr)
  }

  /** Accepted are 1 to 32 resource records under a label of up to 190 bytes: addresses, content hashes, names of 1 to 253
      bytes and texts of up to 255. */
  lemma AcceptedRecords(r: FNRecord)
    ensures ValidRecords(r) <==>
      && 1 <= |r.records| <= 32 && |r.name| <= 190
      && forall rr :: rr in r.records ==>
           || (rr.rtype == [0x41] && IsIPv4(rr.value))
           || (rr.rtype == [0x41, 0x41, 0x41, 0x41] && IsIPv6(rr.value))
           || (rr.rtype == [0x43, 0x4e, 0x41, 0x4d, 0x45] && 1 <= |rr.value| <= 253)
           || (rr.rtype == [0x43, 0x4f, 0x4e, 0x54, 0x45, 0x4e, 0x54] && IsContentName(rr.value))
           || (rr.rtype == [0x54, 0x58, 0x54] && |rr.value| <= 255)
  {
  }

  /** Validation does not rule this out: a CNAME record and a TXT record, with TTL zero and 244 bytes of text at most,
      are accepted, and so is the one CNAME record that signs the same bytes. */
  lemma ValidRecordsCollide(r: FNRecord, target: Bytes, text: Bytes)
    requires |r.name| <= MAX_LABEL_LEN && target != [] && |target| + |text| <= 244
    ensures var a, b := RR([0x43, 0x4e, 0x41, 0x4d, 0x45], target, 0), RR([0x54, 0x58, 0x54], text, 0);
      var two, one := r.(records := [a, b]), r.(records := [RunTogether(a, b)]);
      ValidRecords(two) && ValidRecords(one) && two.records != one.records && Canonical(two) == Canonical(one)
  {
    hide Canonical;
    NulConfuses(r, RR(TYPE_CNAME, target, 0), RR(TYPE_TXT, text, 0));
  }

  function FromBE(s: Bytes): nat {
    if s == [] then 0 else 256 * FromBE(s[..|s| - 1]) + s[|s| - 1]
  }

  lemma {:induction false} FromBESpelled(s: Bytes)
    ensures FromBE(s) < Bound(|s|) && BE(FromBE(s), |s|) == s
  {
    if s != [] {
      FromBESpelled(s[..|s| - 1]);
      assert s == s[..|s| - 1] + [s[|s| - 1]];
    }
  }

  /** With a longer key, a resource record passes for the start of the trailer. */
  lemma KeyLengthConfuses(a: FNRecord, t: byte, v: byte, ttl: uint32) returns (b: FNRecord)
    requires a.records == [RR([t], [v], ttl)]
    ensures Canonical(b) == Canonical(a) && b.records == [] && |b.pubKey| == |a.pubKey| + 8
  {
    hide BE;
    var head := [t, 0, v, 0] + BE(ttl, 4);
    FromBESpelled(head);
    Bounds();
    var stamp: int64 := ToSigned(a.seqNo);
    b := FNRecord(a.name, [], FromBE(head), stamp, BE(ToUnsigned(a.eol), 8) + a.pubKey);
    PairBytes(a.records[0], a.records[0]);
    assert SortRRs(a.records) == a.records by { assert a.records[1..] == []; }
    assert RRBytes(a.records[0]) == head;
    assert Trailer(b) == head + Trailer(a);
    assert RRList([]) == [] && SortRRs([]) == [];
    assert a.name + [0] + [] + Trailer(b) == a.name + [0] + head + Trailer(a);
  }

  // ---------------------------------------------------------------- reading it back

  /** Sorted records come by type, and among those of one type by value. */
  lemma SortedByFields(rs: seq<RR>, i: nat, j: nat)
    requires DistinctKeys(rs) && i < j < |rs|
    ensures var out := SortRRs(rs);
      || (out[i].rtype != out[j].rtype && exists k :: SmallerAt(out[i].rtype, out[j].rtype, k))
      || (out[i].rtype == out[j].rtype && exists k :: SmallerAt(out[i].value, out[j].value, k))
  {
    var out := SortRRs(rs);
    SortOrders(rs);
    assert Sooner(out[i], out[j]);
    BeforeExactly(out[i].rtype, out[j].rtype);
    BeforeExactly(out[i].value, out[j].value);
  }

  lemma {:induction false} SortKeepsAll(rs: seq<RR>)
    ensures multiset(SortRRs(rs)) == multiset(rs)
  {
    if rs != [] {
      assert rs == [rs[0]] + rs[1..];
      SortKeepsAll(rs[1..]);
      InsertKeepsAll(rs[0], SortRRs(rs[1..]));
    }
  }

  lemma {:induction false} InsertKeepsAll(r: RR, rs: seq<RR>)
    ensures multiset(InsertRR(r, rs)) == multiset{r} + multiset(rs)
  {
    if rs != [] && !Sooner(r, rs[0]) {
      assert rs == [rs[0]] + rs[1..];
      InsertKeepsAll(r, rs[1..]);
    }
  }

  /** The most significant byte first. */
  lemma BigEndian(n: nat)
    ensures BE(n, 4) == [n / 0x100_0000 % 256, n / 0x1_0000 % 256, n / 0x100 % 256, n % 256]
    ensures BE(n, 8) == BE(n / 0x1_0000_0000, 4) + BE(n, 4)
  {
    hide BE;
    FourBytes(n);
    var n1 := n / 256;
    var n2 := n1 / 256;
    var n3 := n2 / 256;
    var n4 := n3 / 256;
    assert n2 == n / 0x1_0000 && n3 == n / 0x100_0000 && n4 == n / 0x1_0000_0000;
    LastByte(n, 8);
    LastByte(n1, 7);
    LastByte(n2, 6);
    LastByte(n3, 5);
  }

  lemma LastByte(n: nat, k: nat)
    requires k > 0
    ensures BE(n, k) == BE(n / 256, k - 1) + [n % 256]
  {
  }

  lemma FourBytes(n: nat)
    ensures BE(n, 4) == [n / 0x100_0000 % 256, n / 0x1_0000 % 256, n / 0x100 % 256, n % 256]
  {
    assert n / 256 / 256 == n / 0x1_0000 && n / 256 / 256 / 256 == n / 0x100_0000;
    assert BE(n / 256 / 256 / 256, 1) == [] + [n / 256 / 256 / 256 % 256];
    assert BE(n / 256 / 256, 2) == BE(n / 256 / 256 / 256, 1) + [n / 256 / 256 % 256];
    assert BE(n / 256, 3) == BE(n / 256 / 256, 2) + [n / 256 % 256];
  }

  /** The text up to the first NUL, and what follows it. */
  function TakeText(b: Bytes): Option<(Bytes, Bytes)> {
    if b == [] then None
    else if b[0] == 0 then Some(([], b[1..]))
    else
      match TakeText(b[1..])
      case None => None
      case Some((text, rest)) => Some(([b[0]] + text, rest))
  }

  lemma {:induction false} TextReads(text: Bytes, rest: Bytes)
    requires NulFree(text)
    ensures TakeText(text + [0] + rest) == Some((text, rest))
  {
    var b := text + [0] + rest;
    if text == [] {
      assert b[1..] == rest;
    } else {
      assert text[0] in text && b[0] == text[0];
      assert b[1..] == text[1..] + [0] + rest;
      TextReads(text[1..], rest);
      assert [text[0]] + text[1..] == text;
    }
  }

  /** Type, value and TTL. */
  function TakeRR(b: Bytes): Option<(RR, Bytes)> {
    match TakeText(b)
    case None => None
    case Some((rtype, b1)) =>
      match TakeText(b1)
      case None => None
      case Some((value, b2)) =>
        if |b2| < 4 then None
        else
          FromBESpelled(b2[..4]);
          Bounds();
          Some((RR(rtype, value, FromBE(b2[..4])), b2[4..]))
  }

  lemma RRReads(r: RR, rest: Bytes)
    requires NulFree(r.rtype) && NulFree(r.value)
    ensures TakeRR(RRBytes(r) + rest) == Some((r, rest))
  {
    hide BE, FromBE;
    var b2 := BE(r.ttl, 4) + rest;
    var b1 := r.value + [0] + b2;
    assert RRBytes(r) + rest == r.rtype + [0] + b1;
    TextReads(r.rtype, b1);
    TextReads(r.value, b2);
    assert b2[..4] == BE(r.ttl, 4) && b2[4..] == rest;
    FromBESpelled(b2[..4]);
    Bounds();
    BEInjective(FromBE(b2[..4]), r.ttl, 4);
  }

  /** Resource records up to the last `tail` bytes. */
  function TakeRRs(b: Bytes, tail: nat): Option<(seq<RR>, Bytes)>
    decreases |b|
  {
    if |b| <= tail then if |b| == tail then Some(([], b)) else None
    else
      match TakeRR(b)
      case None => None
      case Some((r, rest)) =>
        if |rest| >= |b| then None
        else
          match TakeRRs(rest, tail)
          case None => None
          case Some((rs, end)) => Some(([r] + rs, end))
  }

  lemma {:induction false} RRsRead(rs: seq<RR>, end: Bytes)
    requires Clean(rs)
    ensures TakeRRs(RRList(rs) + end, |end|) == Some((rs, end))
    decreases |rs|
  {
    hide TakeRR, RRBytes;
    if rs == [] {
      assert RRList(rs) + end == end;
    } else {
      var rest := RRList(rs[1..]) + end;
      assert RRList(rs) + end == RRBytes(rs[0]) + rest;
      assert rs[0] in rs && Clean(rs[1..]);
      NotEmpty(rs[0]);
      RRReads(rs[0], rest);
      RRsRead(rs[1..], end);
      assert [rs[0]] + rs[1..] == rs;
    }
  }

  lemma NotEmpty(r: RR)
    ensures |RRBytes(r)| >= 6
  {
  }

  /** A record as it stands in the bytes that are signed: name, resource records, sequence number, expiry, and a key of
      `keyLength` bytes. */
  function ReadCanonical(b: Bytes, keyLength: nat): Option<FNRecord> {
    match TakeText(b)
    case None => None
    case Some((name, b1)) =>
      match TakeRRs(b1, 16 + keyLength)
      case None => None
      case Some((rs, end)) =>
        if |end| < 16 then None
        else
          FromBESpelled(end[..8]);
          FromBESpelled(end[8..16]);
          Bounds();
          Some(FNRecord(name, rs, FromBE(end[..8]), ToSigned(FromBE(end[8..16])), end[16..]))
  }

  /** What is signed reads back, for NUL-free texts, as the record with its resource records sorted. */
  lemma CanonicalReadsBack(r: FNRecord)
    requires NulFree(r.name) && Clean(r.records)
    ensures ReadCanonical(Canonical(r), |r.pubKey|) == Some(r.(records := SortRRs(r.records)))
  {
    hide BE, FromBE, TakeRRs, TakeText, RRList;
    var end, rs := Trailer(r), SortRRs(r.records);
    assert Canonical(r) == r.name + [0] + (RRList(rs) + end);
    TextReads(r.name, RRList(rs) + end);
    RRsRead(rs, end);
    assert end[..8] == BE(r.seqNo, 8) && end[8..16] == BE(ToUnsigned(r.eol), 8) && end[16..] == r.pubKey;
    FromBESpelled(end[..8]);
    FromBESpelled(end[8..16]);
    Bounds();
    BEInjective(FromBE(end[..8]), r.seqNo, 8);
    BEInjective(FromBE(end[8..16]), ToUnsigned(r.eol), 8);
  }
}
