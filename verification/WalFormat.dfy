/**
 The write-ahead log as bytes: one record is
 [op:1][key length:4][value length:4][key][value], and a log is replayed
 record by record until the bytes that are left do not hold a whole record.
 */
module WalFormat {
  import opened Wrappers
  import opened ByteStrings

  type Table = map<Bytes, Bytes>

  const OP_PUT: byte := 1
  const OP_DELETE: byte := 2

  datatype Record = Record(op: byte, key: Bytes, value: Bytes)

  function PutRecord(key: Bytes, value: Bytes): Record { Record(OP_PUT, key, value) }

  function DeleteRecord(key: Bytes): Record { Record(OP_DELETE, key, []) }

  /** Both lengths can be written in 32 bits. */
  predicate Fits(r: Record) {
    |r.key| < UINT32_LIMIT && |r.value| < UINT32_LIMIT
  }

  predicate AllFit(rs: seq<Record>) {
    forall r | r in rs :: Fits(r)
  }

  function Size(r: Record): nat { 9 + |r.key| + |r.value| }

  function Encode(r: Record): (b: Bytes)
    ensures |b| == Size(r)
  {
    [r.op] + PutUint32(Uint32(|r.key|)) + PutUint32(Uint32(|r.value|)) + r.key + r.value
  }

  function EncodeAll(rs: seq<Record>): Bytes {
    if rs == [] then [] else Encode(rs[0]) + EncodeAll(rs[1..])
  }

  /** The record at the front of `s`, or None when `s` ends before that record does. */
  function Decode(s: Bytes): Option<Record> {
    if |s| < 9 then None
    else
      var keyLen, valLen := GetUint32(s[1..5]), GetUint32(s[5..9]);
      if |s| < 9 + keyLen + valLen then None
      else Some(Record(s[0], s[9..9 + keyLen], s[9 + keyLen..9 + keyLen + valLen]))
  }

  /** What one record does to the table; an unknown operation does nothing. */
  function Apply(m: Table, r: Record): Table {
    if r.op == OP_PUT then m[r.key := r.value]
    else if r.op == OP_DELETE then m - {r.key}
    else m
  }

  function Fold(m: Table, rs: seq<Record>): Table
    decreases rs
  {
    if rs == [] then m else Fold(Apply(m, rs[0]), rs[1..])
  }

  function Replay(m: Table, s: Bytes): Table
    decreases |s|
  {
    match Decode(s)
    case None => m
    case Some(r) => Replay(Apply(m, r), s[Size(r)..])
  }

  /** The whole records at the front of a log. */
  function Records(s: Bytes): seq<Record>
    decreases |s|
  {
    match Decode(s)
    case None => []
    case Some(r) => [r] + Records(s[Size(r)..])
  }

  /** The bytes after the last whole record. */
  function Tail(s: Bytes): Bytes
    decreases |s|
  {
    match Decode(s)
    case None => s
    case Some(r) => Tail(s[Size(r)..])
  }

  // ---------- The codec ----------

  /** Where the five fields of a record lie at the front of `s`. */
  lemma EncodeFields(s: Bytes, r: Record)
    requires |s| >= Size(r)
    ensures Encode(r) <= s <==>
            && s[0] == r.op
            && s[1..5] == PutUint32(Uint32(|r.key|))
            && s[5..9] == PutUint32(Uint32(|r.value|))
            && s[9..9 + |r.key|] == r.key
            && s[9 + |r.key|..Size(r)] == r.value
  {
    var k, v := PutUint32(Uint32(|r.key|)), PutUint32(Uint32(|r.value|));
    var e := Encode(r);
    assert e[0] == r.op;
    assert e[1..5] == k;
    assert e[5..9] == v;
    assert e[9..9 + |r.key|] == r.key;
    assert e[9 + |r.key|..Size(r)] == r.value;
    FiveParts(s, e, 9 + |r.key|);
  }

  /** A prefix, compared field by field. */
  lemma FiveParts(s: Bytes, e: Bytes, a: nat)
    requires 9 <= a <= |e| <= |s|
    ensures e <= s <==>
            && e[0] == s[0] && e[1..5] == s[1..5] && e[5..9] == s[5..9]
            && e[9..a] == s[9..a] && e[a..|e|] == s[a..|e|]
  {
    assert e == [e[0]] + e[1..5] + e[5..9] + e[9..a] + e[a..|e|];
    assert s[..|e|] == [s[0]] + s[1..5] + s[5..9] + s[9..a] + s[a..|e|];
  }

  /** Decoding inverts encoding and finds nothing that encoding did not write. */
  lemma DecodeExact(s: Bytes, r: Record)
    ensures Decode(s) == Some(r) <==> Fits(r) && Encode(r) <= s
  {
    if |s| >= Size(r) {
      EncodeFields(s, r);
      Uint32RoundTrip(Uint32(|r.key|), s[1..5]);
      Uint32RoundTrip(Uint32(|r.value|), s[5..9]);
    }
  }

  /** A record is read back as it was written exactly when its lengths fit in 32 bits. */
  lemma RecordRoundTrip(r: Record)
    ensures Decode(Encode(r)) == Some(r) <==> Fits(r)
  {
    DecodeExact(Encode(r), r);
  }

  /** A record that is cut short is not read at all. */
  lemma TornRecord(r: Record, n: nat)
    requires Fits(r) && n < Size(r)
    ensures Decode(Encode(r)[..n]) == None
  {
    var p := Encode(r)[..n];
    match Decode(p)
    case None =>
    case Some(q) =>
      DecodeExact(p, q);
      DecodeExact(Encode(r), q);
      DecodeExact(Encode(r), r);
      assert false;
  }

  /**
   The bytes of a put and of a delete: the operation, 1 or 2, the two lengths, most significant
   byte first, the key, and the value, of which a delete has none.
   */
  lemma RecordLayout(key: Bytes, value: Bytes, n: nat, i: nat)
    requires Fits(PutRecord(key, value)) && |key| == n
    ensures var e := Encode(PutRecord(key, value));
            && |e| == 9 + n + |value| && e[0] == 1
            && e[1..5] == [n / 0x100_0000, n / 0x1_0000 % 0x100, n / 0x100 % 0x100, n % 0x100]
            && e[5..9] == [|value| / 0x100_0000, |value| / 0x1_0000 % 0x100, |value| / 0x100 % 0x100, |value| % 0x100]
            && (i < n ==> e[9 + i] == key[i])
            && (n <= i < n + |value| ==> e[9 + i] == value[i - n])
    ensures Encode(DeleteRecord(key)) == [2] + Encode(PutRecord(key, []))[1..]
  {
    var r := PutRecord(key, value);
    BigEndian(n);
    BigEndian(|value|);
    EncodeFields(Encode(r), r);
    assert Encode(r)[9..9 + n] == key && Encode(r)[9 + n..Size(r)] == value;
  }

  // ---------- Replay ----------

  lemma {:induction false} EncodeAllConcat(a: seq<Record>, b: seq<Record>)
    ensures EncodeAll(a + b) == EncodeAll(a) + EncodeAll(b)
  {
    if a == [] {
      assert a + b == b;
    } else {
      assert (a + b)[1..] == a[1..] + b;
      EncodeAllConcat(a[1..], b);
    }
  }

  lemma {:induction false} FoldConcat(m: Table, a: seq<Record>, b: seq<Record>)
    ensures Fold(m, a + b) == Fold(Fold(m, a), b)
    decreases a
  {
    if a == [] {
      assert a + b == b;
    } else {
      assert (a + b)[1..] == a[1..] + b;
      FoldConcat(Apply(m, a[0]), a[1..], b);
    }
  }

  /** The last record that puts or deletes the key is `rs[i]`. */
  predicate LastOn(rs: seq<Record>, k: Bytes, i: nat) {
    && i < |rs| && rs[i].key == k && rs[i].op in {1, 2}
    && forall j | i < j < |rs| && rs[j].key == k :: rs[j].op !in {1, 2}
  }

  lemma {:induction false} UntouchedKey(m: Table, rs: seq<Record>, k: Bytes)
    requires forall j | 0 <= j < |rs| && rs[j].key == k :: rs[j].op !in {1, 2}
    ensures (k in Fold(m, rs) <==> k in m) && (k in m ==> Fold(m, rs)[k] == m[k])
    decreases rs
  {
    if rs != [] {
      assert forall j | 0 <= j < |rs| - 1 :: rs[1..][j] == rs[j + 1];
      UntouchedKey(Apply(m, rs[0]), rs[1..], k);
    }
  }

  /**
   After any records a key has the value of the last put on it, unless a delete came after
   that; an unknown operation touches nothing.
   */
  lemma {:induction false} LastWriteWins(m: Table, rs: seq<Record>, k: Bytes, i: nat)
    requires LastOn(rs, k, i)
    ensures k in Fold(m, rs) <==> rs[i].op == 1
    ensures rs[i].op == 1 ==> Fold(m, rs)[k] == rs[i].value
    decreases i
  {
    var m1 := Apply(m, rs[0]);
    assert forall j | 0 <= j < |rs| - 1 :: rs[1..][j] == rs[j + 1];
    if i == 0 {
      UntouchedKey(m1, rs[1..], k);
    } else {
      assert LastOn(rs[1..], k, i - 1);
      LastWriteWins(m1, rs[1..], k, i - 1);
    }
  }

  lemma ReplayOne(m: Table, r: Record, t: Bytes)
    requires Fits(r)
    ensures Replay(m, Encode(r) + t) == Replay(Apply(m, r), t)
    ensures Tail(Encode(r) + t) == Tail(t)
  {
    var s := Encode(r) + t;
    DecodeExact(s, r);
    assert s[Size(r)..] == t;
  }

  /** Whole records are consumed one by one, whatever follows them. */
  lemma {:induction false} ReplayWholeRecords(m: Table, rs: seq<Record>, t: Bytes)
    requires AllFit(rs)
    ensures Replay(m, EncodeAll(rs) + t) == Replay(Fold(m, rs), t)
    ensures Tail(EncodeAll(rs) + t) == Tail(t)
    decreases rs
  {
    if rs == [] {
      assert EncodeAll(rs) + t == t;
    } else {
      var r, rest := rs[0], EncodeAll(rs[1..]) + t;
      assert EncodeAll(rs) + t == Encode(r) + rest;
      ReplayOne(m, r, rest);
      ReplayWholeRecords(Apply(m, r), rs[1..], t);
    }
  }

  lemma DecomposeStep(s: Bytes, r: Record, rs: seq<Record>, t: Bytes)
    requires Encode(r) <= s && s[Size(r)..] == EncodeAll(rs) + t
    ensures s == EncodeAll([r] + rs) + t
  {
    assert ([r] + rs)[1..] == rs;
    var e, x := Encode(r), EncodeAll(rs);
    assert s == e + (x + t) == (e + x) + t;
  }

  /** Every file is whole records followed by a tail that holds none. */
  lemma {:induction false} Decompose(s: Bytes)
    ensures AllFit(Records(s)) && s == EncodeAll(Records(s)) + Tail(s)
    ensures Decode(Tail(s)) == None
    decreases |s|
  {
    match Decode(s)
    case None =>
    case Some(r) =>
      DecodeExact(s, r);
      var rest := s[Size(r)..];
      Decompose(rest);
      DecomposeStep(s, r, Records(rest), Tail(rest));
  }

  /** Replaying any file folds the whole records it holds. */
  lemma ReplayIsFold(m: Table, s: Bytes)
    ensures Replay(m, s) == Fold(m, Records(s))
  {
    Decompose(s);
    ReplayWholeRecords(m, Records(s), Tail(s));
  }

  lemma EncodeAllOne(r: Record)
    ensures EncodeAll([r]) == Encode(r)
  {
    assert [r][1..] == [] && EncodeAll([r]) == Encode(r) + [];
  }

  lemma EncodeAllPrefix(rs: seq<Record>, k: nat)
    requires k < |rs|
    ensures EncodeAll(rs[..k + 1]) == EncodeAll(rs[..k]) + Encode(rs[k])
  {
    assert rs[..k + 1] == rs[..k] + [rs[k]];
    EncodeAllConcat(rs[..k], [rs[k]]);
    EncodeAllOne(rs[k]);
  }

  lemma SplitAt(a: Bytes, b: Bytes, n: nat)
    requires n <= |a| + |b|
    ensures (a + b)[..n] == if n < |a| then a[..n] else a + b[..n - |a|]
  {
  }

  /** A cut inside the first record leaves nothing to read. */
  lemma CutFirst(rs: seq<Record>, n: nat)
    requires AllFit(rs) && rs != [] && n < Size(rs[0])
    ensures n <= |EncodeAll(rs)| && Decode(EncodeAll(rs)[..n]) == None
  {
    assert Fits(rs[0]);
    TornRecord(rs[0], n);
    SplitAt(Encode(rs[0]), EncodeAll(rs[1..]), n);
  }

  /** A log cut inside its k-th record is its first k records and a piece that holds no record. */
  lemma CutLog(rs: seq<Record>, n: nat, k: nat) returns (t: Bytes)
    requires AllFit(rs) && k <= |rs| && n <= |EncodeAll(rs)|
    requires |EncodeAll(rs[..k])| <= n
    requires k < |rs| ==> n < |EncodeAll(rs[..k + 1])|
    ensures EncodeAll(rs)[..n] == EncodeAll(rs[..k]) + t
    ensures Decode(t) == None
  {
    var whole, rest := rs[..k], rs[k..];
    assert rs == whole + rest;
    EncodeAllConcat(whole, rest);
    SplitAt(EncodeAll(whole), EncodeAll(rest), n);
    var m := n - |EncodeAll(whole)|;
    t := EncodeAll(rest)[..m];
    if k < |rs| {
      EncodeAllPrefix(rs, k);
      assert rest[0] == rs[k];
      CutFirst(rest, m);
    }
  }

  /** The number of records wholly inside the first `n` bytes. */
  function WholeWithin(rs: seq<Record>, n: nat): (k: nat)
    ensures k <= |rs| && |EncodeAll(rs[..k])| <= n
    ensures k < |rs| ==> n < |EncodeAll(rs[..k + 1])|
  {
    assert rs[..|rs|] == rs;
    if |EncodeAll(rs)| <= n then |rs|
    else
      var k := WholeWithin(rs[..|rs| - 1], n);
      assert rs[..|rs| - 1][..k] == rs[..k];
      assert k < |rs| - 1 ==> rs[..|rs| - 1][..k + 1] == rs[..k + 1];
      k
  }

  /** Replaying any byte prefix of a log gives the fold of the records wholly inside that prefix. */
  lemma ReplayPrefix(m: Table, rs: seq<Record>, n: nat)
    requires AllFit(rs) && n <= |EncodeAll(rs)|
    ensures Replay(m, EncodeAll(rs)[..n]) == Fold(m, rs[..WholeWithin(rs, n)])
  {
    var k := WholeWithin(rs, n);
    var t := CutLog(rs, n, k);
    ReplayWholeRecords(m, rs[..k], t);
  }

  /** A tail shorter than the nine-byte header changes nothing. */
  lemma ShortTailIgnored(m: Table, rs: seq<Record>, t: Bytes)
    requires AllFit(rs) && |t| < 9
    ensures Replay(m, EncodeAll(rs) + t) == Fold(m, rs)
  {
    ReplayWholeRecords(m, rs, t);
  }

  // ---------- Appending behind what is already there ----------

  predicate Holds(m: Table, r: Record) { r.key in m && m[r.key] == r.value }

  /** A put that the table does not already hold. */
  function Probe(m: Table): (r: Record)
    ensures Fits(r) && r.op == OP_PUT && !Holds(m, r)
  {
    if [] in m && m[[]] == [] then PutRecord([], [7]) else PutRecord([], [])
  }

  /** Bytes that start with a probe and go on with that probe after a non-empty gap cannot exist. */
  lemma ProbeDoesNotOverlap(m: Table, t: Bytes)
    requires 0 < |t| < Size(Probe(m))
    ensures !(Encode(Probe(m)) <= t + Encode(Probe(m)))
  {
    var r := Probe(m);
    var e := Encode(r);
    var s := t + e;
    EncodeFields(e, r);
    ProbeBytes(m);
    assert s[|t|] == e[0];
    assert |t| == 8 && |e| == 10 ==> s[9] == e[1];
  }

  lemma ProbeBytes(m: Table)
    ensures var e := Encode(Probe(m));
            && e[0] == 1 && (forall i | 1 <= i < 8 :: e[i] == 0)
            && if |e| == 9 then e[8] == 0 else e[8] == 1 && e[9] == 7
  {
    assert Digits(0, 4) == [0, 0, 0, 0] by {
      assert Digits(0, 2) == Digits(0, 1) + [0] == [0, 0];
    }
    assert Digits(1, 4) == [0, 0, 0, 1] by {
      assert Digits(0, 2) == Digits(0, 1) + [0] == [0, 0];
    }
  }

  /** Bytes too few to hold a put cannot bring its value into the table. */
  lemma {:induction false} TooShortFor(m: Table, s: Bytes, r: Record)
    requires r.op == OP_PUT && !Holds(m, r) && |s| < Size(r)
    ensures !Holds(Replay(m, s), r)
    decreases |s|
  {
    match Decode(s)
    case None =>
    case Some(q) => TooShortFor(Apply(m, q), s[Size(q)..], r);
  }

  lemma PrefixOfPart(a: Bytes, b: Bytes, c: Bytes)
    ensures a <= b + c && |a| <= |b| ==> a <= b
  {
    assert b == (b + c)[..|b|];
  }

  /** After a torn tail the probe is swallowed: it never reaches the table. */
  lemma ProbeIsLost(m: Table, t: Bytes)
    requires t != [] && Decode(t) == None
    ensures !Holds(Replay(m, t + Encode(Probe(m))), Probe(m))
  {
    var r := Probe(m);
    var s := t + Encode(r);
    match Decode(s)
    case None =>
    case Some(q) =>
      DecodeExact(s, q);
      DecodeExact(t, q);
      assert Size(q) > |t| by {
        PrefixOfPart(Encode(q), t, Encode(r));
      }
      if |t| < Size(r) { ProbeDoesNotOverlap(m, t); }
      assert q != r;
      TooShortFor(Apply(m, q), s[Size(q)..], r);
  }

  /**
   Appending a record to a log has the record's effect on every later replay,
   for every record, exactly when the log does not end in a torn record.
   */
  lemma AppendSafeIffNoTail(s: Bytes)
    ensures (forall r | Fits(r) :: Replay(map[], s + Encode(r)) == Apply(Replay(map[], s), r)) <==> Tail(s) == []
  {
    var m, t := Replay(map[], s), Tail(s);
    if t == [] {
      forall r | Fits(r)
        ensures Replay(map[], s + Encode(r)) == Apply(m, r)
      {
        AppendBehindWhole(s, r);
      }
    } else {
      Decompose(s);
      ProbeIsLost(m, t);
      AppendBehindTail(map[], s, Encode(Probe(m)));
    }
  }

  /** What is appended is read as a continuation of the tail. */
  lemma {:induction false} AppendBehindTail(m: Table, s: Bytes, e: Bytes)
    ensures Replay(m, s + e) == Replay(Replay(m, s), Tail(s) + e)
    ensures Tail(s + e) == Tail(Tail(s) + e)
    decreases |s|
  {
    match Decode(s)
    case None =>
    case Some(r) =>
      DecodeExact(s, r);
      DecodeExact(s + e, r);
      assert s <= s + e;
      assert (s + e)[Size(r)..] == s[Size(r)..] + e;
      AppendBehindTail(Apply(m, r), s[Size(r)..], e);
  }

  /** Behind whole records, a record takes effect. */
  lemma AppendBehindWhole(s: Bytes, r: Record)
    requires Fits(r) && Tail(s) == []
    ensures Replay(map[], s + Encode(r)) == Apply(Replay(map[], s), r)
    ensures Tail(s + Encode(r)) == []
  {
    var e := Encode(r);
    AppendBehindTail(map[], s, e);
    assert Tail(s) + e == e == e + [];
    ReplayOne(Replay(map[], s), r, []);
  }

  /** Replaying only ever produces keys and values whose lengths fit. */
  predicate TableFits(m: Table) {
    forall k | k in m :: |k| < UINT32_LIMIT && |m[k]| < UINT32_LIMIT
  }

  lemma {:induction false} FoldFits(m: Table, rs: seq<Record>)
    requires TableFits(m) && AllFit(rs)
    ensures TableFits(Fold(m, rs))
    decreases rs
  {
    if rs != [] {
      assert Fits(rs[0]);
      FoldFits(Apply(m, rs[0]), rs[1..]);
    }
  }
}
