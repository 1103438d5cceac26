/**
 The simple store's file: every entry as [key length:4][key][value length:4][value],
 rewritten as a whole on each change. An entry is a put record without its operation byte.
 */
module KvFormat {
  import opened Wrappers
  import opened ByteStrings
  import opened WalFormat
  import opened WalCompaction

  function EntrySize(r: Record): nat { 8 + |r.key| + |r.value| }

  function EncodeEntry(r: Record): (b: Bytes)
    ensures |b| == EntrySize(r)
  {
    PutUint32(Uint32(|r.key|)) + r.key + PutUint32(Uint32(|r.value|)) + r.value
  }

  function EncodeEntries(rs: seq<Record>): Bytes {
    if rs == [] then [] else EncodeEntry(rs[0]) + EncodeEntries(rs[1..])
  }

  datatype Read = End | Failed | Found(r: Record)

  /** Reading one entry: a clean end of file is not an error, anything else cut short is. */
  function ReadEntry(s: Bytes): Read {
    if s == [] then End
    else if |s| < 4 then Failed
    else
      var k := GetUint32(s[..4]);
      if |s| < 8 + k then Failed
      else
        var v := GetUint32(s[4 + k..8 + k]);
        if |s| < 8 + k + v then Failed
        else Found(PutRecord(s[4..4 + k], s[8 + k..8 + k + v]))
  }

  function Load(m: Table, s: Bytes): Option<Table>
    decreases |s|
  {
    match ReadEntry(s)
    case End => Some(m)
    case Failed => None
    case Found(r) => Load(Apply(m, r), s[EntrySize(r)..])
  }

  /** `text` is what saving `m` can write, for some iteration order. */
  ghost predicate IsSaved(m: Table, text: Bytes) {
    exists order :: Enumerates(order, m) && text == EncodeEntries(Puts(m, order))
  }

  /** Where the four fields of an entry lie at the front of `s`. */
  lemma EntryFields(s: Bytes, r: Record)
    requires |s| >= EntrySize(r)
    ensures EncodeEntry(r) <= s <==>
            && s[..4] == PutUint32(Uint32(|r.key|))
            && s[4..4 + |r.key|] == r.key
            && s[4 + |r.key|..8 + |r.key|] == PutUint32(Uint32(|r.value|))
            && s[8 + |r.key|..EntrySize(r)] == r.value
  {
    var k := |r.key|;
    var e := EncodeEntry(r);
    assert e[..4] == PutUint32(Uint32(|r.key|));
    assert e[4..4 + k] == r.key;
    assert e[4 + k..8 + k] == PutUint32(Uint32(|r.value|));
    assert e[8 + k..EntrySize(r)] == r.value;
    FourParts(s, e, 4 + k);
  }

  /** A prefix, compared field by field. */
  lemma FourParts(s: Bytes, e: Bytes, a: nat)
    requires 4 <= a && a + 4 <= |e| <= |s|
    ensures e <= s <==>
            && e[..4] == s[..4] && e[4..a] == s[4..a]
            && e[a..a + 4] == s[a..a + 4] && e[a + 4..|e|] == s[a + 4..|e|]
  {
    assert e == e[..4] + e[4..a] + e[a..a + 4] + e[a + 4..|e|];
    assert s[..|e|] == s[..4] + s[4..a] + s[a..a + 4] + s[a + 4..|e|];
  }

  lemma ReadExact(s: Bytes, r: Record)
    ensures ReadEntry(s) == Found(r) <==> Fits(r) && r.op == OP_PUT && EncodeEntry(r) <= s
  {
    if |s| >= EntrySize(r) {
      EntryFields(s, r);
      var k := |r.key|;
      Uint32RoundTrip(Uint32(|r.key|), s[..4]);
      Uint32RoundTrip(Uint32(|r.value|), s[4 + k..8 + k]);
    }
  }

  /** The bytes of an entry: the key behind its length, then the value behind its own. */
  lemma EntryLayout(key: Bytes, value: Bytes, n: nat, i: nat)
    requires Fits(PutRecord(key, value)) && |key| == n
    ensures var e := EncodeEntry(PutRecord(key, value));
            && |e| == 8 + n + |value|
            && e[..4] == [n / 0x100_0000, n / 0x1_0000 % 0x100, n / 0x100 % 0x100, n % 0x100]
            && (i < n ==> e[4 + i] == key[i])
            && e[4 + n..8 + n] ==
               [|value| / 0x100_0000, |value| / 0x1_0000 % 0x100, |value| / 0x100 % 0x100, |value| % 0x100]
            && (i < |value| ==> e[8 + n + i] == value[i])
  {
    var r := PutRecord(key, value);
    BigEndian(n);
    BigEndian(|value|);
    EntryFields(EncodeEntry(r), r);
    assert EncodeEntry(r)[4..4 + n] == key && EncodeEntry(r)[8 + n..EntrySize(r)] == value;
  }

  /** An entry cut short, but not to nothing, is an error. */
  lemma TornEntry(r: Record, n: nat)
    requires Fits(r) && r.op == OP_PUT && 0 < n < EntrySize(r)
    ensures ReadEntry(EncodeEntry(r)[..n]) == Failed
  {
    var p := EncodeEntry(r)[..n];
    match ReadEntry(p)
    case End => assert false;
    case Failed =>
    case Found(q) =>
      ReadExact(p, q);
      ReadExact(EncodeEntry(r), q);
      ReadExact(EncodeEntry(r), r);
      assert false;
  }

  predicate AllPuts(rs: seq<Record>) {
    forall r | r in rs :: Fits(r) && r.op == OP_PUT
  }

  lemma LoadOne(m: Table, r: Record, t: Bytes)
    requires Fits(r) && r.op == OP_PUT
    ensures Load(m, EncodeEntry(r) + t) == Load(Apply(m, r), t)
  {
    var s := EncodeEntry(r) + t;
    ReadExact(s, r);
    assert s[EntrySize(r)..] == t;
  }

  /** Whole entries are loaded one by one, whatever follows them. */
  lemma {:induction false} LoadWholeEntries(m: Table, rs: seq<Record>, t: Bytes)
    requires AllPuts(rs)
    ensures Load(m, EncodeEntries(rs) + t) == Load(Fold(m, rs), t)
    decreases rs
  {
    if rs == [] {
      assert EncodeEntries(rs) + t == t;
    } else {
      var r, rest := rs[0], EncodeEntries(rs[1..]) + t;
      assert EncodeEntries(rs) + t == EncodeEntry(r) + rest;
      LoadOne(m, r, rest);
      LoadWholeEntries(Apply(m, r), rs[1..], t);
    }
  }

  lemma {:induction false} EncodeEntriesConcat(a: seq<Record>, b: seq<Record>)
    ensures EncodeEntries(a + b) == EncodeEntries(a) + EncodeEntries(b)
  {
    if a == [] {
      assert a + b == b;
    } else {
      assert (a + b)[1..] == a[1..] + b;
      EncodeEntriesConcat(a[1..], b);
    }
  }

  lemma EncodeEntriesPrefix(rs: seq<Record>, k: nat)
    requires k < |rs|
    ensures EncodeEntries(rs[..k + 1]) == EncodeEntries(rs[..k]) + EncodeEntry(rs[k])
  {
    assert rs[..k + 1] == rs[..k] + [rs[k]];
    assert [rs[k]][1..] == [] && EncodeEntries([rs[k]]) == EncodeEntry(rs[k]) + [];
    EncodeEntriesConcat(rs[..k], [rs[k]]);
  }

  /** The number of entries wholly inside the first `n` bytes. */
  function EntriesWithin(rs: seq<Record>, n: nat): (k: nat)
    ensures k <= |rs| && |EncodeEntries(rs[..k])| <= n
    ensures k < |rs| ==> n < |EncodeEntries(rs[..k + 1])|
  {
    assert rs[..|rs|] == rs;
    if |EncodeEntries(rs)| <= n then |rs|
    else
      var k := EntriesWithin(rs[..|rs| - 1], n);
      assert rs[..|rs| - 1][..k] == rs[..k];
      assert k < |rs| - 1 ==> rs[..|rs| - 1][..k + 1] == rs[..k + 1];
      k
  }

  /** A file cut anywhere is its whole entries and a piece that is empty or an entry cut short. */
  lemma CutEntries(rs: seq<Record>, n: nat) returns (t: Bytes)
    requires AllPuts(rs) && n <= |EncodeEntries(rs)|
    ensures EncodeEntries(rs)[..n] == EncodeEntries(rs[..EntriesWithin(rs, n)]) + t
    ensures ReadEntry(t) == if t == [] then End else Failed
  {
    var k := EntriesWithin(rs, n);
    var whole, rest := EncodeEntries(rs[..k]), EncodeEntries(rs[k..]);
    assert rs == rs[..k] + rs[k..];
    EncodeEntriesConcat(rs[..k], rs[k..]);
    t := rest[..n - |whole|];
    SplitAt(whole, rest, n);
    if t != [] {
      EncodeEntriesPrefix(rs, k);
      SplitAt(EncodeEntry(rs[k]), EncodeEntries(rs[k..][1..]), n - |whole|);
      TornEntry(rs[k], n - |whole|);
    }
  }

  /**
   Loading a prefix of a saved file succeeds exactly when the cut falls on an entry
   boundary, and then yields the entries before it.
   */
  lemma LoadPrefix(m: Table, rs: seq<Record>, n: nat)
    requires AllPuts(rs) && n <= |EncodeEntries(rs)|
    ensures var k := EntriesWithin(rs, n);
            Load(m, EncodeEntries(rs)[..n]) ==
            if n == |EncodeEntries(rs[..k])| then Some(Fold(m, rs[..k])) else None
  {
    var t := CutEntries(rs, n);
    LoadWholeEntries(m, rs[..EntriesWithin(rs, n)], t);
  }

  lemma {:induction false} PutsArePuts(m: Table, order: seq<Bytes>)
    requires forall k | k in order :: k in m
    requires TableFits(m)
    ensures AllPuts(Puts(m, order))
  {
    if order != [] {
      PutsArePuts(m, order[..|order| - 1]);
    }
  }

  lemma {:induction false} LoadFits(m: Table, s: Bytes)
    requires TableFits(m)
    ensures Load(m, s).Some? ==> TableFits(Load(m, s).value)
    decreases |s|
  {
    match ReadEntry(s)
    case End =>
    case Failed =>
    case Found(r) =>
      ReadExact(s, r);
      LoadFits(Apply(m, r), s[EntrySize(r)..]);
  }

  lemma LoadSaved(m: Table, order: seq<Bytes>)
    requires TableFits(m) && Enumerates(order, m)
    ensures Load(map[], EncodeEntries(Puts(m, order))) == Some(m)
  {
    var text := EncodeEntries(Puts(m, order));
    PutsArePuts(m, order);
    FoldPuts(m, order);
    assert Restrict(m, order) == m;
    assert text == text + [];
    LoadWholeEntries(map[], Puts(m, order), []);
  }

  /** Saving and then loading gives the table back, in any order, exactly when every length fits. */
  lemma SaveLoadRoundTrip(m: Table, text: Bytes)
    requires IsSaved(m, text)
    ensures Load(map[], text) == Some(m) <==> TableFits(m)
  {
    LoadFits(map[], text);
    if TableFits(m) {
      var order :| Enumerates(order, m) && text == EncodeEntries(Puts(m, order));
      LoadSaved(m, order);
    }
  }
}
