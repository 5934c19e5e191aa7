/** The rows a query returns (OOoDataset) and the key each row carries:
    composed by `initKey` from the key columns whose value is set, and taken
    apart again by `getDatasetsByKey`. */
module RowKey {
  import opened Outcomes
  import opened Text
  import opened KeyCodec

  /** A row: every schema column mapped to its value, None for SQL NULL or
      a column the result set does not have; and the key computed once when
      the row is made. */
  datatype Dataset = Dataset(data: map<string, Option<string>>, key: string)

  /** `data.get(column)` on the row's HashMap: null for an absent column too. */
  function Lookup(data: map<string, Option<string>>, column: string): Option<string>
  {
    if column in data then data[column] else None
  }

  /** The (column, value) pairs that go into a key: the key columns in
      order, skipping the ones whose value is null. */
  function PresentPairs(cols: seq<string>, data: map<string, Option<string>>): seq<(string, string)>
  {
    if cols == [] then []
    else
      var rest := PresentPairs(cols[1..], data);
      match Lookup(data, cols[0])
      case None => rest
      case Some(v) => [(cols[0], v)] + rest
  }

  /** The pairs are those of the key columns that have a value, with that
      value, and no more of them than there are key columns. */
  lemma {:induction false} PresentPairsMeaning(cols: seq<string>, data: map<string, Option<string>>)
    ensures var ps := PresentPairs(cols, data);
            |ps| <= |cols| &&
            (forall p :: p in ps ==> p.0 in cols && Lookup(data, p.0) == Some(p.1)) &&
            (forall c :: c in cols && Lookup(data, c).Some? ==> (c, Lookup(data, c).value) in ps)
  {
    if cols != [] {
      PresentPairsMeaning(cols[1..], data);
      assert forall c :: c in cols[1..] ==> c in cols;
      assert forall c :: c in cols ==> c == cols[0] || c in cols[1..];
    }
  }

  /** `idx` lists, strictly increasing, exactly the positions of the key
      columns that have a value, and `ps` pairs the column at each of
      those positions with its value. */
  predicate Selects(cols: seq<string>, data: map<string, Option<string>>, ps: seq<(string, string)>, idx: seq<nat>)
  {
    |idx| == |ps| && PairsAt(cols, data, ps, idx) && Increasing(idx) && CoversPresent(cols, data, idx)
  }

  /** Each pair is the column at its position, with that column's value. */
  predicate PairsAt(cols: seq<string>, data: map<string, Option<string>>, ps: seq<(string, string)>, idx: seq<nat>)
    requires |idx| == |ps|
  {
    forall i :: 0 <= i < |idx| ==>
      idx[i] < |cols| && ps[i].0 == cols[idx[i]] && Lookup(data, cols[idx[i]]) == Some(ps[i].1)
  }

  predicate Increasing(idx: seq<nat>)
  {
    forall i, j :: 0 <= i < j < |idx| ==> idx[i] < idx[j]
  }

  /** Every column with a value has its position listed. */
  predicate CoversPresent(cols: seq<string>, data: map<string, Option<string>>, idx: seq<nat>)
  {
    forall k :: 0 <= k < |cols| && Lookup(data, cols[k]).Some? ==> k in idx
  }

  /** The pairs follow the key columns in order, one per column with a
      value: they are the columns at the increasing positions of exactly
      the columns that have a value. */
  lemma {:induction false} PresentPairsInOrder(cols: seq<string>, data: map<string, Option<string>>)
    ensures exists idx :: Selects(cols, data, PresentPairs(cols, data), idx)
  {
    if cols == [] {
      assert PresentPairs(cols, data) == [];
      assert Selects(cols, data, [], []);
    } else {
      PresentPairsInOrder(cols[1..], data);
      var rest := PresentPairs(cols[1..], data);
      var idx :| Selects(cols[1..], data, rest, idx);
      var up := Shifted(idx);
      match Lookup(data, cols[0])
      case None =>
        assert PresentPairs(cols, data) == rest;
        PairsAtShifted(cols, data, rest, idx);
        IncreasingShifted(idx);
        CoversShifted(cols, data, idx);
        assert Selects(cols, data, rest, up);
      case Some(v) =>
        assert PresentPairs(cols, data) == [(cols[0], v)] + rest;
        PairsAtTaken(cols, data, rest, idx, v);
        IncreasingTaken(idx);
        CoversTaken(cols, data, idx);
        assert Selects(cols, data, [(cols[0], v)] + rest, [0] + up);
    }
  }

  /** Positions in the tail of the key columns, as positions in the whole. */
  function Shifted(idx: seq<nat>): (r: seq<nat>)
    ensures |r| == |idx| && forall i :: 0 <= i < |idx| ==> r[i] == idx[i] + 1
  {
    seq(|idx|, i requires 0 <= i < |idx| => idx[i] + 1)
  }

  lemma PairsAtShifted(cols: seq<string>, data: map<string, Option<string>>, rest: seq<(string, string)>, idx: seq<nat>)
    requires cols != [] && |idx| == |rest| && PairsAt(cols[1..], data, rest, idx)
    ensures PairsAt(cols, data, rest, Shifted(idx))
  {
    forall i | 0 <= i < |idx|
      ensures cols[1..][idx[i]] == cols[idx[i] + 1]
    {
    }
  }

  lemma IncreasingShifted(idx: seq<nat>)
    requires Increasing(idx)
    ensures Increasing(Shifted(idx))
  {
  }

  lemma CoversShifted(cols: seq<string>, data: map<string, Option<string>>, idx: seq<nat>)
    requires cols != [] && Lookup(data, cols[0]).None? && CoversPresent(cols[1..], data, idx)
    ensures CoversPresent(cols, data, Shifted(idx))
  {
    var up := Shifted(idx);
    forall k | 0 <= k < |cols| && Lookup(data, cols[k]).Some?
      ensures k in up
    {
      assert cols[1..][k - 1] == cols[k];
      var i :| 0 <= i < |idx| && idx[i] == k - 1;
      assert up[i] == k;
    }
  }

  lemma PairsAtTaken(cols: seq<string>, data: map<string, Option<string>>, rest: seq<(string, string)>, idx: seq<nat>, v: string)
    requires cols != [] && Lookup(data, cols[0]) == Some(v)
    requires |idx| == |rest| && PairsAt(cols[1..], data, rest, idx)
    ensures PairsAt(cols, data, [(cols[0], v)] + rest, [0] + Shifted(idx))
  {
    var ps, all := [(cols[0], v)] + rest, [0] + Shifted(idx);
    forall i | 0 < i < |all|
      ensures all[i] < |cols| && ps[i].0 == cols[all[i]] && Lookup(data, cols[all[i]]) == Some(ps[i].1)
    {
      assert all[i] == idx[i - 1] + 1 && ps[i] == rest[i - 1];
      assert cols[1..][idx[i - 1]] == cols[all[i]];
    }
  }

  lemma IncreasingTaken(idx: seq<nat>)
    requires Increasing(idx)
    ensures Increasing([0] + Shifted(idx))
  {
    var all := [0] + Shifted(idx);
    forall i, j | 0 <= i < j < |all|
      ensures all[i] < all[j]
    {
      assert all[j] == idx[j - 1] + 1;
      if i > 0 {
        assert all[i] == idx[i - 1] + 1;
      }
    }
  }

  lemma CoversTaken(cols: seq<string>, data: map<string, Option<string>>, idx: seq<nat>)
    requires cols != [] && CoversPresent(cols[1..], data, idx)
    ensures CoversPresent(cols, data, [0] + Shifted(idx))
  {
    var all := [0] + Shifted(idx);
    forall k | 0 < k < |cols| && Lookup(data, cols[k]).Some?
      ensures k in all
    {
      assert cols[1..][k - 1] == cols[k];
      var i :| 0 <= i < |idx| && idx[i] == k - 1;
      assert all[i + 1] == k;
    }
  }

  /** One column's share of a key: `encode(column) # encode(value) #`. */
  function Field(p: (string, string)): string
  {
    Encode(p.0) + "#" + Encode(p.1) + "#"
  }

  /** The key text for a sequence of pairs: their fields one after another. */
  function KeyText(ps: seq<(string, string)>): string
  {
    if ps == [] then [] else Field(ps[0]) + KeyText(ps[1..])
  }

  /** The key `initKey` gives a row with these key columns and values. */
  function KeyOf(cols: seq<string>, data: map<string, Option<string>>): string
  {
    KeyText(PresentPairs(cols, data))
  }

  lemma {:induction false} PresentPairsSnoc(cols: seq<string>, c: string, data: map<string, Option<string>>)
    ensures PresentPairs(cols + [c], data)
         == PresentPairs(cols, data) + (if Lookup(data, c).Some? then [(c, Lookup(data, c).value)] else [])
  {
    if cols == [] {
      assert [c][1..] == [];
      assert cols + [c] == [c];
    } else {
      assert (cols + [c])[1..] == cols[1..] + [c];
      PresentPairsSnoc(cols[1..], c, data);
    }
  }

  lemma {:induction false} KeyTextSnoc(ps: seq<(string, string)>, p: (string, string))
    ensures KeyText(ps + [p]) == KeyText(ps) + Field(p)
  {
    if ps == [] {
      assert ps + [p] == [p];
      assert [p][1..] == [];
    } else {
      assert (ps + [p])[1..] == ps[1..] + [p];
      KeyTextSnoc(ps[1..], p);
    }
  }

  /** `initKey`: appends the field of every key column with a value, in order. */
  method InitKey(keyCols: seq<string>, data: map<string, Option<string>>) returns (key: string)
    ensures key == KeyOf(keyCols, data)
  {
    var buffy := "";
    var i := 0;
    while i < |keyCols|
      invariant 0 <= i <= |keyCols|
      invariant buffy == KeyOf(keyCols[..i], data)
    {
      var str := Lookup(data, keyCols[i]);
      ghost var before := buffy;
      if str.Some? {
        buffy := buffy + Encode(keyCols[i]);
        buffy := buffy + "#";
        buffy := buffy + Encode(str.value);
        buffy := buffy + "#";
      }
      InitKeyStep(keyCols, i, data, before);
      i := i + 1;
    }
    assert keyCols[..i] == keyCols;
    key := buffy;
  }

  /** One round of `initKey`'s loop extends the key by the next column's field, if any. */
  lemma InitKeyStep(cols: seq<string>, i: nat, data: map<string, Option<string>>, before: string)
    requires i < |cols|
    requires before == KeyOf(cols[..i], data)
    ensures Lookup(data, cols[i]).None? ==> before == KeyOf(cols[..i + 1], data)
    ensures Lookup(data, cols[i]).Some? ==>
      before + Encode(cols[i]) + "#" + Encode(Lookup(data, cols[i]).value) + "#" == KeyOf(cols[..i + 1], data)
  {
    var done := PresentPairs(cols[..i], data);
    assert cols[..i + 1] == cols[..i] + [cols[i]];
    PresentPairsSnoc(cols[..i], cols[i], data);
    match Lookup(data, cols[i])
    case None =>
      assert done + [] == done;
    case Some(v) =>
      KeyTextSnoc(done, (cols[i], v));
      FieldAppend(before, cols[i], v);
  }

  lemma FieldAppend(before: string, c: string, v: string)
    ensures before + Encode(c) + "#" + Encode(v) + "#" == before + Field((c, v))
  {
    var e, f := Encode(c), Encode(v);
    assert before + e + "#" + f + "#" == before + (e + "#" + f + "#");
  }

  /** The pairs `getDatasetsByKey` reads from the fields of a split key:
      fields 0 and 1, 2 and 3, ... decoded as column and value; a last
      unpaired field is ignored; None if a field does not decode. */
  function DecodedPairs(parts: seq<string>): Option<seq<(string, string)>>
  {
    if |parts| < 2 then Some([])
    else
      match Decoded(parts[0])
      case None => None
      case Some(c) =>
        match Decoded(parts[1])
        case None => None
        case Some(v) =>
          match DecodedPairs(parts[2..])
          case None => None
          case Some(ps) => Some([(c, v)] + ps)
  }

  /** The pairs of a key: split on `#`, keeping the trailing empty field, and decode. */
  function KeyPairs(key: string): Option<seq<(string, string)>>
  {
    DecodedPairs(Split(key, '#'))
  }

  lemma {:induction false} SplitKeyText(ps: seq<(string, string)>)
    ensures Split(KeyText(ps), '#') == FieldTexts(ps) + [[]]
  {
    if ps == [] {
      assert KeyText(ps) == [];
    } else {
      var c, v := Encode(ps[0].0), Encode(ps[0].1);
      var rest := KeyText(ps[1..]);
      EncodeHasNoMarker(ps[0].0);
      EncodeHasNoMarker(ps[0].1);
      assert KeyText(ps) == c + ['#'] + v + ['#'] + rest;
      SplitFieldPair(c, v, rest, '#');
      SplitKeyText(ps[1..]);
      assert [c, v] + (FieldTexts(ps[1..]) + [[]]) == FieldTexts(ps) + [[]];
    }
  }

  /** The fields of the key text before its trailing empty field. */
  function FieldTexts(ps: seq<(string, string)>): seq<string>
  {
    if ps == [] then [] else [Encode(ps[0].0), Encode(ps[0].1)] + FieldTexts(ps[1..])
  }

  lemma {:induction false} DecodedFieldTexts(ps: seq<(string, string)>)
    ensures DecodedPairs(FieldTexts(ps) + [[]]) == Some(ps)
  {
    if ps != [] {
      var parts := FieldTexts(ps) + [[]];
      assert parts[0] == Encode(ps[0].0) && parts[1] == Encode(ps[0].1);
      assert parts[2..] == FieldTexts(ps[1..]) + [[]];
      DecodeEncode(ps[0].0);
      DecodeEncode(ps[0].1);
      DecodedFieldTexts(ps[1..]);
      assert [ps[0]] + ps[1..] == ps;
    }
  }

  /** Taking a key apart gives back, in order, exactly the pairs it was made of. */
  lemma KeyRoundTrip(ps: seq<(string, string)>)
    ensures KeyPairs(KeyText(ps)) == Some(ps)
  {
    SplitKeyText(ps);
    DecodedFieldTexts(ps);
  }

  /** A row's key decodes to the key columns that have a value, with those values. */
  lemma RowKeyRoundTrip(cols: seq<string>, data: map<string, Option<string>>)
    ensures KeyPairs(KeyOf(cols, data)) == Some(PresentPairs(cols, data))
  {
    KeyRoundTrip(PresentPairs(cols, data));
  }

  /** Different pair sequences give different keys. */
  lemma KeyInjective(ps: seq<(string, string)>, qs: seq<(string, string)>)
    requires KeyText(ps) == KeyText(qs)
    ensures ps == qs
  {
    KeyRoundTrip(ps);
    KeyRoundTrip(qs);
  }

  /** Two rows get the same key only if the same key columns have values
      and the values agree. */
  lemma RowKeyInjective(cols: seq<string>, d1: map<string, Option<string>>, d2: map<string, Option<string>>)
    requires KeyOf(cols, d1) == KeyOf(cols, d2)
    ensures forall c :: c in cols ==> Lookup(d1, c) == Lookup(d2, c)
  {
    KeyInjective(PresentPairs(cols, d1), PresentPairs(cols, d2));
    PresentPairsMeaning(cols, d1);
    PresentPairsMeaning(cols, d2);
    forall c | c in cols
      ensures Lookup(d1, c) == Lookup(d2, c)
    {
      if Lookup(d1, c).Some? {
        assert (c, Lookup(d1, c).value) in PresentPairs(cols, d2);
      } else if Lookup(d2, c).Some? {
        assert (c, Lookup(d2, c).value) in PresentPairs(cols, d1);
      }
    }
  }

  lemma {:induction false} DecodedPairsSnoc(xs: seq<string>, a: string, b: string)
    requires |xs| % 2 == 0
    ensures DecodedPairs(xs + [a, b])
         == match DecodedPairs(xs)
            case None => None
            case Some(ps) =>
              if Decoded(a).Some? && Decoded(b).Some? then Some(ps + [(Decoded(a).value, Decoded(b).value)])
              else None
  {
    if xs == [] {
      var ys := xs + [a, b];
      assert ys == [a, b] && ys[0] == a && ys[1] == b;
      assert ys[2..] == [];
      if Decoded(a).Some? && Decoded(b).Some? {
        var last := (Decoded(a).value, Decoded(b).value);
        assert [last] + [] == [] + [last];
      }
    } else {
      var ys := xs + [a, b];
      assert ys[0] == xs[0] && ys[1] == xs[1];
      assert ys[2..] == xs[2..] + [a, b];
      DecodedPairsSnoc(xs[2..], a, b);
      match DecodedPairs(xs[2..])
      case None =>
      case Some(ps) =>
        if Decoded(a).Some? && Decoded(b).Some? && Decoded(xs[0]).Some? && Decoded(xs[1]).Some? {
          var first := (Decoded(xs[0]).value, Decoded(xs[1]).value);
          var last := (Decoded(a).value, Decoded(b).value);
          assert [first] + (ps + [last]) == ([first] + ps) + [last];
        }
    }
  }

  lemma {:induction false} DecodedPairsOddTail(xs: seq<string>, a: string)
    requires |xs| % 2 == 0
    ensures DecodedPairs(xs + [a]) == DecodedPairs(xs)
  {
    if xs != [] {
      assert (xs + [a])[2..] == xs[2..] + [a];
      DecodedPairsOddTail(xs[2..], a);
    }
  }

  /** Pair `n` (fields `2n` and `2n+1`) not decoding makes the whole key fail to decode. */
  lemma {:induction false} MalformedPair(parts: seq<string>, n: nat)
    requires 2 * n + 1 < |parts|
    requires DecodedPairs(parts[..2 * n]).Some?
    requires Decoded(parts[2 * n]).None? || Decoded(parts[2 * n + 1]).None?
    ensures DecodedPairs(parts).None?
  {
    if n > 0 {
      var pre := parts[..2 * n];
      assert pre[0] == parts[0] && pre[1] == parts[1];
      assert pre[2..] == parts[2..][..2 * (n - 1)];
      MalformedPair(parts[2..], n - 1);
    }
  }

  /** One round of the loop in `getDatasetsByKey` decodes pair `n`. */
  lemma DecodedPairsStep(parts: seq<string>, n: nat, ps: seq<(string, string)>, c: string, v: string)
    requires 2 * n + 1 < |parts|
    requires DecodedPairs(parts[..2 * n]) == Some(ps)
    requires Decoded(parts[2 * n]) == Some(c) && Decoded(parts[2 * n + 1]) == Some(v)
    ensures DecodedPairs(parts[..2 * n + 2]) == Some(ps + [(c, v)])
  {
    assert parts[..2 * n + 2] == parts[..2 * n] + [parts[2 * n], parts[2 * n + 1]];
    DecodedPairsSnoc(parts[..2 * n], parts[2 * n], parts[2 * n + 1]);
  }

  /** When the loop stops, at most one unpaired field is left, and it is ignored. */
  lemma DecodedPairsDone(parts: seq<string>, n: nat)
    requires |parts| <= 2 * n + 1 <= |parts| + 1
    ensures DecodedPairs(parts) == DecodedPairs(parts[..2 * n])
  {
    if 2 * n < |parts| {
      assert parts == parts[..2 * n] + [parts[2 * n]];
      DecodedPairsOddTail(parts[..2 * n], parts[2 * n]);
    } else {
      assert parts[..2 * n] == parts;
    }
  }

  /** `OOoDataset.get`: ColumnNotFound for a column outside the schema,
      otherwise the row's value (None when not set). */
  function Get(schema: set<string>, row: Dataset, column: string): (r: Result<Option<string>, string>)
    ensures r.Failure? <==> column !in schema
    ensures r.Failure? ==> r.error == column
    ensures r.Success? ==> r.value == Lookup(row.data, column)
  {
    if column !in schema then Failure(column) else Success(Lookup(row.data, column))
  }
}
