/**
 Compaction writes one put per live key, in whatever order the map is
 iterated. The text it produces replays to the same table and is the
 shortest file that does.
 */
module WalCompaction {
  import opened ByteStrings
  import opened WalFormat

  /** The keys of `m`, each once. */
  ghost predicate Enumerates(order: seq<Bytes>, m: Table) {
    EnumeratesAllBut({}, order, m)
  }

  /** The keys of `m` outside `rest`, each once. */
  ghost predicate EnumeratesAllBut(rest: set<Bytes>, order: seq<Bytes>, m: Table) {
    && (forall i, j | 0 <= i < j < |order| :: order[i] != order[j])
    && (forall k :: k in order <==> k in m && k !in rest)
  }

  function Puts(m: Table, order: seq<Bytes>): seq<Record>
    requires forall k | k in order :: k in m
  {
    if order == [] then []
    else Puts(m, order[..|order| - 1]) + [PutRecord(order[|order| - 1], m[order[|order| - 1]])]
  }

  lemma OneMorePut(m: Table, rest: set<Bytes>, order: seq<Bytes>, k: Bytes)
    requires k in m && k in rest && EnumeratesAllBut(rest, order, m)
    ensures EnumeratesAllBut(rest - {k}, order + [k], m)
    ensures EncodeAll(Puts(m, order + [k])) == EncodeAll(Puts(m, order)) + Encode(PutRecord(k, m[k]))
  {
    assert (order + [k])[..|order|] == order;
    EncodeAllConcat(Puts(m, order), [PutRecord(k, m[k])]);
    EncodeAllOne(PutRecord(k, m[k]));
  }

  /** `text` is what compacting `m` can write. */
  ghost predicate IsCompaction(m: Table, text: Bytes) {
    exists order :: Enumerates(order, m) && text == EncodeAll(Puts(m, order))
  }

  /** The bytes that one put per entry takes. */
  ghost function TableSize(m: Table): nat
    decreases m.Keys
  {
    if m == map[] then 0
    else
      var k :| k in m;
      9 + |k| + |m[k]| + TableSize(m - {k})
  }

  /** Any entry can be the one counted first. */
  lemma {:induction false} TableSizeRemove(m: Table, k: Bytes)
    requires k in m
    ensures TableSize(m) == 9 + |k| + |m[k]| + TableSize(m - {k})
    decreases m.Keys
  {
    var j :| j in m && TableSize(m) == 9 + |j| + |m[j]| + TableSize(m - {j});
    if j != k {
      TableSizeRemove(m - {j}, k);
      TableSizeRemove(m - {k}, j);
      assert m - {j} - {k} == m - {k} - {j};
    }
  }

  /** One record makes the table larger by at most its own size. */
  lemma TableSizeApply(m: Table, r: Record)
    ensures TableSize(Apply(m, r)) <= TableSize(m) + Size(r)
  {
    var without := m - {r.key};
    if r.key in m {
      TableSizeRemove(m, r.key);
    } else {
      assert without == m;
    }
    if r.op == OP_PUT {
      TableSizeRemove(m[r.key := r.value], r.key);
      assert m[r.key := r.value] - {r.key} == without;
    }
  }

  /** A log is at least as long as the table it produces. */
  lemma {:induction false} TableSizeFold(m: Table, rs: seq<Record>)
    ensures TableSize(Fold(m, rs)) <= TableSize(m) + |EncodeAll(rs)|
    decreases rs
  {
    if rs != [] {
      TableSizeApply(m, rs[0]);
      TableSizeFold(Apply(m, rs[0]), rs[1..]);
    }
  }

  ghost function Restrict(m: Table, keys: seq<Bytes>): Table {
    map k | k in m && k in keys :: m[k]
  }

  lemma RestrictOneMore(m: Table, init: seq<Bytes>, k: Bytes)
    requires k in m && k !in init
    ensures Restrict(m, init + [k]) - {k} == Restrict(m, init)
    ensures TableSize(Restrict(m, init + [k])) == TableSize(Restrict(m, init)) + 9 + |k| + |m[k]|
  {
    TableSizeRemove(Restrict(m, init + [k]), k);
    assert Restrict(m, init + [k]) - {k} == Restrict(m, init);
  }

  /** The puts of an order build the table up entry by entry. */
  lemma {:induction false} FoldPuts(m: Table, order: seq<Bytes>)
    requires forall k | k in order :: k in m
    ensures Fold(map[], Puts(m, order)) == Restrict(m, order)
  {
    if order == [] {
    } else {
      var n := |order| - 1;
      var init, last := order[..n], PutRecord(order[n], m[order[n]]);
      FoldPuts(m, init);
      FoldConcat(map[], Puts(m, init), [last]);
      assert [last][1..] == [];
      assert order == init + [order[n]];
      assert Apply(Restrict(m, init), last) == Restrict(m, order);
    }
  }

  lemma {:induction false} SizeOfPuts(m: Table, order: seq<Bytes>)
    requires forall k | k in order :: k in m
    requires forall i, j | 0 <= i < j < |order| :: order[i] != order[j]
    ensures |EncodeAll(Puts(m, order))| == TableSize(Restrict(m, order))
  {
    if order == [] {
      assert Restrict(m, order) == map[];
    } else {
      var n := |order| - 1;
      var init, last := order[..n], PutRecord(order[n], m[order[n]]);
      SizeOfPuts(m, init);
      EncodeAllConcat(Puts(m, init), [last]);
      EncodeAllOne(last);
      assert order == init + [order[n]];
      RestrictOneMore(m, init, order[n]);
    }
  }

  lemma {:induction false} PutsFit(m: Table, order: seq<Bytes>)
    requires forall k | k in order :: k in m
    requires TableFits(m)
    ensures AllFit(Puts(m, order))
  {
    if order != [] {
      var n := |order| - 1;
      PutsFit(m, order[..n]);
    }
  }

  /** Every compaction of a table has the same length, whatever the order. */
  lemma CompactionSize(m: Table, text: Bytes)
    requires IsCompaction(m, text)
    ensures |text| == TableSize(m)
  {
    var order :| Enumerates(order, m) && text == EncodeAll(Puts(m, order));
    SizeOfPuts(m, order);
    assert Restrict(m, order) == m;
  }

  /**
   Compaction preserves the meaning of the log, in any iteration order,
   exactly when every key and value is short enough for its length field.
   */
  lemma CompactionPreservesMeaning(m: Table, text: Bytes)
    requires IsCompaction(m, text)
    ensures Replay(map[], text) == m <==> TableFits(m)
    ensures TableFits(m) ==> Tail(text) == []
  {
    var order :| Enumerates(order, m) && text == EncodeAll(Puts(m, order));
    if TableFits(m) {
      PutsFit(m, order);
      FoldPuts(m, order);
      assert Restrict(m, order) == m;
      assert text == text + [];
      ReplayWholeRecords(map[], Puts(m, order), []);
    }
    Decompose(text);
    ReplayIsFold(map[], text);
    FoldFits(map[], Records(text));
  }

  /** No file that replays to the same table, torn tail or not, is shorter than a compaction. */
  lemma CompactionIsOptimal(m: Table, text: Bytes, file: Bytes)
    requires IsCompaction(m, text) && Replay(map[], file) == m
    ensures |text| <= |file|
  {
    CompactionSize(m, text);
    Decompose(file);
    ReplayIsFold(map[], file);
    TableSizeFold(map[], Records(file));
  }
}
