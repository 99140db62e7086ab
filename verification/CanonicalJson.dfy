/** The canonical form used to compare two JSON results whose arrays come back
    in an order the provider chose (scripts/v2_phase2_direct_read_acceptance.py).

    An object is the list of its fields in insertion order, so that "the order
    of keys does not matter" is something to prove. `text` stands for the
    canonical JSON text of a value; all that is used of it is that two values
    with sorted keys and the same text are the same value. */
module CanonicalJson {
  import opened Wrappers
  import opened Sorting

  datatype Json =
    | Null
    | Bool(truth: bool)
    | Int(number: int)
    | Str(chars: string)
    | Float(repr: string)  // a float, by the text `str` gives it
    | Arr(items: seq<Json>)
    | Obj(fields: seq<Field>)

  datatype Field = Field(name: string, value: Json)

  function NameOf(f: Field): string { f.name }

  /** What a Python dict guarantees: at every depth the keys are distinct. */
  ghost predicate WellFormed(v: Json)
    decreases v
  {
    match v
    case Arr(items) => AllWellFormed(items)
    case Obj(fields) =>
      && (forall i, j :: 0 <= i < j < |fields| ==> fields[i].name != fields[j].name)
      && AllFieldsWellFormed(fields)
    case _ => true
  }

  ghost predicate AllWellFormed(xs: seq<Json>)
    decreases xs
  {
    forall i :: 0 <= i < |xs| ==> WellFormed(xs[i])
  }

  ghost predicate AllFieldsWellFormed(fs: seq<Field>)
    decreases fs
  {
    forall i :: 0 <= i < |fs| ==> WellFormed(fs[i].value)
  }

  ghost predicate FloatFree(v: Json)
    decreases v
  {
    match v
    case Float(_) => false
    case Arr(items) => forall i :: 0 <= i < |items| ==> FloatFree(items[i])
    case Obj(fields) => forall i :: 0 <= i < |fields| ==> FloatFree(fields[i].value)
    case _ => true
  }

  /** At every depth the keys are in strictly increasing order. */
  ghost predicate KeysSorted(v: Json)
    decreases v
  {
    match v
    case Arr(items) => forall x | x in items :: KeysSorted(x)
    case Obj(fields) =>
      && SortedBy(fields, NameOf)
      && (forall i, j :: 0 <= i < j < |fields| ==> fields[i].name != fields[j].name)
      && (forall f | f in fields :: KeysSorted(f.value))
    case _ => true
  }

  ghost predicate TextDetermines(text: Json -> string) {
    forall v, w {:trigger text(v), text(w)} :: KeysSorted(v) && KeysSorted(w) && text(v) == text(w) ==> v == w
  }

  // ---- the code: _scalar, _canonical_collection, normalize_for_comparison ----

  /** `_scalar`: floats become text, objects get their keys in sorted order. */
  function Scalar(v: Json): Json
    decreases v
  {
    match v
    case Float(repr) => Str(repr)
    case Arr(items) => Arr(ScalarItems(items))
    case Obj(fields) => Obj(SortBy(ScalarFields(fields), NameOf))
    case _ => v
  }

  function ScalarItems(xs: seq<Json>): seq<Json>
    decreases xs
  {
    if xs == [] then [] else [Scalar(xs[0])] + ScalarItems(xs[1..])
  }

  function ScalarFields(fs: seq<Field>): seq<Field>
    decreases fs
  {
    if fs == [] then [] else [Field(fs[0].name, Scalar(fs[0].value))] + ScalarFields(fs[1..])
  }

  /** `_canonical_collection`: arrays are sorted by canonical text unless their
      order is significant; object keys are always put in order. */
  function Canon(v: Json, ordered: bool, text: Json -> string): Json
    decreases v
  {
    match v
    case Arr(items) =>
      var canonical := CanonItems(items, ordered, text);
      Arr(if ordered then canonical else SortBy(canonical, text))
    case Obj(fields) => Obj(SortBy(CanonFields(fields, ordered, text), NameOf))
    case _ => v
  }

  function CanonItems(xs: seq<Json>, ordered: bool, text: Json -> string): seq<Json>
    decreases xs
  {
    if xs == [] then [] else [Canon(xs[0], ordered, text)] + CanonItems(xs[1..], ordered, text)
  }

  function CanonFields(fs: seq<Field>, ordered: bool, text: Json -> string): seq<Field>
    decreases fs
  {
    if fs == [] then []
    else [Field(fs[0].name, Canon(fs[0].value, ordered, text))] + CanonFields(fs[1..], ordered, text)
  }

  function Norm(v: Json, ordered: bool, text: Json -> string): Json {
    Canon(Scalar(v), ordered, text)
  }

  // ---- the meaning: equal up to reordering ----

  /** Equal up to the order of object keys and, unless `ordered`, the order of
      arrays, at every depth. Elements are paired off one by one. */
  ghost predicate Equiv(v: Json, w: Json, ordered: bool)
    decreases v
  {
    match v
    case Arr(items) => w.Arr? && EquivItems(items, w.items, ordered)
    case Obj(fields) => w.Obj? && EquivFields(fields, w.fields, ordered)
    case _ => v == w
  }

  ghost predicate EquivItems(xs: seq<Json>, ys: seq<Json>, ordered: bool)
    decreases xs
  {
    if xs == [] then ys == []
    else exists k: nat :: k < |ys| && (ordered ==> k == 0)
                          && Equiv(xs[0], ys[k], ordered) && EquivItems(xs[1..], Without(ys, k), ordered)
  }

  ghost predicate EquivFields(fs: seq<Field>, gs: seq<Field>, ordered: bool)
    decreases fs
  {
    if fs == [] then gs == []
    else exists k: nat :: k < |gs| && fs[0].name == gs[k].name
                          && Equiv(fs[0].value, gs[k].value, ordered) && EquivFields(fs[1..], Without(gs, k), ordered)
  }

  // ---- canonical values are well formed and sorted ----

  lemma {:induction false} CanonItemsAppend(xs: seq<Json>, ys: seq<Json>, ordered: bool, text: Json -> string)
    ensures CanonItems(xs + ys, ordered, text) == CanonItems(xs, ordered, text) + CanonItems(ys, ordered, text)
  {
    if xs == [] {
      assert xs + ys == ys;
    } else {
      assert (xs + ys)[1..] == xs[1..] + ys;
      CanonItemsAppend(xs[1..], ys, ordered, text);
    }
  }

  lemma {:induction false} CanonFieldsAppend(fs: seq<Field>, gs: seq<Field>, ordered: bool, text: Json -> string)
    ensures CanonFields(fs + gs, ordered, text) == CanonFields(fs, ordered, text) + CanonFields(gs, ordered, text)
  {
    if fs == [] {
      assert fs + gs == gs;
    } else {
      assert (fs + gs)[1..] == fs[1..] + gs;
      CanonFieldsAppend(fs[1..], gs, ordered, text);
    }
  }

  lemma {:induction false} CanonItemsAt(xs: seq<Json>, ordered: bool, text: Json -> string)
    ensures |CanonItems(xs, ordered, text)| == |xs|
    ensures forall i :: 0 <= i < |xs| ==> CanonItems(xs, ordered, text)[i] == Canon(xs[i], ordered, text)
  {
    if xs != [] { CanonItemsAt(xs[1..], ordered, text); }
  }

  lemma {:induction false} CanonFieldsAt(fs: seq<Field>, ordered: bool, text: Json -> string)
    ensures |CanonFields(fs, ordered, text)| == |fs|
    ensures forall i :: 0 <= i < |fs| ==>
              CanonFields(fs, ordered, text)[i] == Field(fs[i].name, Canon(fs[i].value, ordered, text))
  {
    if fs != [] { CanonFieldsAt(fs[1..], ordered, text); }
  }

  lemma {:induction false} DistinctNames(fs: seq<Field>)
    requires forall i, j :: 0 <= i < j < |fs| ==> fs[i].name != fs[j].name
    ensures DistinctKeys(fs, NameOf)
  {
    forall f, g | f in fs && g in fs && NameOf(f) == NameOf(g) ensures f == g {
      var i :| 0 <= i < |fs| && fs[i] == f;
      var j :| 0 <= j < |fs| && fs[j] == g;
      assert i == j;
    }
  }

  /** Names survive a permutation as distinct names. */
  lemma {:induction false} DistinctAfterSort(fs: seq<Field>)
    requires forall i, j :: 0 <= i < j < |fs| ==> fs[i].name != fs[j].name
    ensures forall i, j :: 0 <= i < j < |fs| ==> SortBy(fs, NameOf)[i].name != SortBy(fs, NameOf)[j].name
  {
    var r := SortBy(fs, NameOf);
    DistinctNames(fs);
    forall i, j | 0 <= i < j < |r| ensures r[i].name != r[j].name {
      if r[i].name == r[j].name {
        assert r[i] in multiset(r) && r[j] in multiset(r);
        assert r[i] == r[j];
        TwiceMeansTwo(r, i, j);
        OnceMeansOne(fs, r[i]);
      }
    }
  }

  lemma {:induction false} TwiceMeansTwo<T>(s: seq<T>, i: nat, j: nat)
    requires i < j < |s| && s[i] == s[j]
    ensures multiset(s)[s[i]] >= 2
  {
    assert s == s[..j] + s[j..];
    assert s[..j][i] == s[i] && s[j..][0] == s[j];
    assert s[i] in multiset(s[..j]) && s[j] in multiset(s[j..]);
  }

  lemma {:induction false} OnceMeansOne(fs: seq<Field>, f: Field)
    requires forall i, j :: 0 <= i < j < |fs| ==> fs[i].name != fs[j].name
    ensures multiset(fs)[f] <= 1
  {
    if fs != [] {
      assert fs == [fs[0]] + fs[1..];
      OnceMeansOne(fs[1..], f);
      assert fs[0] !in fs[1..];
    }
  }

  lemma {:induction false} CanonSorted(v: Json, ordered: bool, text: Json -> string)
    requires WellFormed(v)
    ensures KeysSorted(Canon(v, ordered, text))
    decreases v
  {
    match v
    case Arr(items) =>
      ItemsKeysSorted(items, ordered, text);
      forall x | x in Canon(v, ordered, text).items ensures KeysSorted(x) {
        assert x in multiset(Canon(v, ordered, text).items);
        assert x in CanonItems(items, ordered, text);
      }
    case Obj(fields) =>
      var cs := CanonFields(fields, ordered, text);
      FieldsKeysSorted(fields, ordered, text);
      CanonFieldsAt(fields, ordered, text);
      DistinctAfterSort(cs);
      forall f | f in SortBy(cs, NameOf) ensures KeysSorted(f.value) {
        assert f in multiset(SortBy(cs, NameOf));
        assert f in cs;
      }
    case _ =>
  }

  lemma {:induction false} ItemsKeysSorted(xs: seq<Json>, ordered: bool, text: Json -> string)
    requires AllWellFormed(xs)
    ensures forall x :: x in CanonItems(xs, ordered, text) ==> KeysSorted(x)
    decreases xs
  {
    if xs != [] {
      CanonSorted(xs[0], ordered, text);
      ItemsKeysSorted(xs[1..], ordered, text);
    }
  }

  lemma {:induction false} FieldsKeysSorted(fs: seq<Field>, ordered: bool, text: Json -> string)
    requires AllFieldsWellFormed(fs)
    ensures forall f :: f in CanonFields(fs, ordered, text) ==> KeysSorted(f.value)
    decreases fs
  {
    if fs != [] {
      CanonSorted(fs[0].value, ordered, text);
      FieldsKeysSorted(fs[1..], ordered, text);
    }
  }

  lemma {:induction false} CanonItemsSorted(xs: seq<Json>, ordered: bool, text: Json -> string)
    requires AllWellFormed(xs)
    requires TextDetermines(text)
    ensures DistinctKeys(CanonItems(xs, ordered, text), text)
  {
    ItemsKeysSorted(xs, ordered, text);
  }

  // ---- the canonical form decides the equivalence ----

  /** Main result about `_canonical_collection`: equal canonical forms are exactly
      equality up to reordering. */
  lemma {:induction false} CanonDecides(v: Json, w: Json, ordered: bool, text: Json -> string)
    requires WellFormed(v) && WellFormed(w) && TextDetermines(text)
    ensures Canon(v, ordered, text) == Canon(w, ordered, text) <==> Equiv(v, w, ordered)
    decreases v, 1
  {
    match v
    case Arr(items) =>
      if w.Arr? {
        var cs, ds := CanonItems(items, ordered, text), CanonItems(w.items, ordered, text);
        CanonItemsSorted(items, ordered, text);
        if ordered {
          CanonItemsInOrder(items, w.items, text);
        } else {
          CanonItemsDecide(items, w.items, text);
          if multiset(cs) == multiset(ds) { SortByMultiset(cs, ds, text); }
          assert multiset(SortBy(cs, text)) == multiset(cs) && multiset(SortBy(ds, text)) == multiset(ds);
        }
      }
    case Obj(fields) =>
      if w.Obj? {
        var cs, ds := CanonFields(fields, ordered, text), CanonFields(w.fields, ordered, text);
        CanonFieldsAt(fields, ordered, text);
        DistinctNames(cs);
        CanonFieldsDecide(fields, w.fields, ordered, text);
        if multiset(cs) == multiset(ds) { SortByMultiset(cs, ds, NameOf); }
        assert multiset(SortBy(cs, NameOf)) == multiset(cs) && multiset(SortBy(ds, NameOf)) == multiset(ds);
      }
    case _ =>
  }

  lemma {:induction false} CanonItemsInOrder(xs: seq<Json>, ys: seq<Json>, text: Json -> string)
    requires AllWellFormed(xs) && AllWellFormed(ys) && TextDetermines(text)
    ensures CanonItems(xs, true, text) == CanonItems(ys, true, text) <==> EquivItems(xs, ys, true)
    decreases xs, 0
  {
    if xs != [] && ys != [] {
      CanonDecides(xs[0], ys[0], true, text);
      CanonItemsInOrder(xs[1..], ys[1..], text);
      assert Without(ys, 0) == ys[1..];
      assert CanonItems(xs, true, text)[0] == Canon(xs[0], true, text);
      assert CanonItems(xs, true, text)[1..] == CanonItems(xs[1..], true, text);
      assert CanonItems(ys, true, text)[0] == Canon(ys[0], true, text);
      assert CanonItems(ys, true, text)[1..] == CanonItems(ys[1..], true, text);
    }
  }

  lemma {:induction false} CanonItemsWithout(ys: seq<Json>, k: nat, ordered: bool, text: Json -> string)
    requires k < |ys|
    ensures multiset(CanonItems(ys, ordered, text))
         == multiset{Canon(ys[k], ordered, text)} + multiset(CanonItems(Without(ys, k), ordered, text))
  {
    assert ys == ys[..k] + ([ys[k]] + ys[k + 1..]);
    CanonItemsAppend(ys[..k], [ys[k]] + ys[k + 1..], ordered, text);
    CanonItemsAppend(ys[..k], ys[k + 1..], ordered, text);
    assert ([ys[k]] + ys[k + 1..])[1..] == ys[k + 1..];
  }

  lemma SameHead<T>(head: multiset<T>, a: multiset<T>, b: multiset<T>)
    ensures head + a == head + b <==> a == b
  {
    assert head + a - head == a && head + b - head == b;
  }

  /** What matching `xs[0]` with `ys[k]` leaves to compare. */
  lemma {:induction false} CanonItemsMatch(xs: seq<Json>, ys: seq<Json>, k: nat, text: Json -> string)
    requires xs != [] && k < |ys|
    requires Canon(xs[0], false, text) == Canon(ys[k], false, text)
    ensures multiset(CanonItems(xs, false, text)) == multiset(CanonItems(ys, false, text))
            <==> multiset(CanonItems(xs[1..], false, text)) == multiset(CanonItems(Without(ys, k), false, text))
  {
    CanonItemsWithout(ys, k, false, text);
    SameHead(multiset{Canon(xs[0], false, text)}, multiset(CanonItems(xs[1..], false, text)),
             multiset(CanonItems(Without(ys, k), false, text)));
  }

  lemma WithoutWellFormed(ys: seq<Json>, k: nat)
    requires AllWellFormed(ys) && k < |ys|
    ensures AllWellFormed(Without(ys, k))
  {
    forall i | 0 <= i < |ys| - 1 ensures WellFormed(Without(ys, k)[i]) {
      assert Without(ys, k)[i] == ys[if i < k then i else i + 1];
    }
  }

  lemma {:induction false} CanonItemsTry(xs: seq<Json>, ys: seq<Json>, k: nat, text: Json -> string)
    requires AllWellFormed(xs) && AllWellFormed(ys) && TextDetermines(text)
    requires xs != [] && k < |ys|
    ensures Equiv(xs[0], ys[k], false) <==> Canon(xs[0], false, text) == Canon(ys[k], false, text)
    ensures Equiv(xs[0], ys[k], false) ==>
              (multiset(CanonItems(xs, false, text)) == multiset(CanonItems(ys, false, text))
               <==> EquivItems(xs[1..], Without(ys, k), false))
    decreases xs, 0
  {
    CanonDecides(xs[0], ys[k], false, text);
    if Equiv(xs[0], ys[k], false) {
      CanonItemsMatch(xs, ys, k, text);
      WithoutWellFormed(ys, k);
      CanonItemsDecide(xs[1..], Without(ys, k), text);
    }
  }

  lemma {:induction false} CanonItemsDecide(xs: seq<Json>, ys: seq<Json>, text: Json -> string)
    requires AllWellFormed(xs) && AllWellFormed(ys) && TextDetermines(text)
    ensures multiset(CanonItems(xs, false, text)) == multiset(CanonItems(ys, false, text))
        <==> EquivItems(xs, ys, false)
    decreases xs, 1
  {
    var cs, ds := CanonItems(xs, false, text), CanonItems(ys, false, text);
    CanonItemsAt(ys, false, text);
    if xs == [] {
      if ys != [] { assert ds[0] in multiset(ds); }
    } else {
      if multiset(cs) == multiset(ds) {
        assert cs[0] in multiset(cs);
        var k: nat :| k < |ds| && ds[k] == cs[0];
        CanonItemsTry(xs, ys, k, text);
      }
      if EquivItems(xs, ys, false) {
        var k: nat :| k < |ys| && Equiv(xs[0], ys[k], false) && EquivItems(xs[1..], Without(ys, k), false);
        CanonItemsTry(xs, ys, k, text);
      }
    }
  }

  lemma {:induction false} CanonFieldsWithout(gs: seq<Field>, k: nat, ordered: bool, text: Json -> string)
    requires k < |gs|
    ensures multiset(CanonFields(gs, ordered, text))
         == multiset{Field(gs[k].name, Canon(gs[k].value, ordered, text))}
            + multiset(CanonFields(Without(gs, k), ordered, text))
  {
    assert gs == gs[..k] + ([gs[k]] + gs[k + 1..]);
    CanonFieldsAppend(gs[..k], [gs[k]] + gs[k + 1..], ordered, text);
    CanonFieldsAppend(gs[..k], gs[k + 1..], ordered, text);
    assert ([gs[k]] + gs[k + 1..])[1..] == gs[k + 1..];
  }

  lemma {:induction false} CanonFieldsMatch(fs: seq<Field>, gs: seq<Field>, k: nat, ordered: bool, text: Json -> string)
    requires fs != [] && k < |gs| && fs[0].name == gs[k].name
    requires Canon(fs[0].value, ordered, text) == Canon(gs[k].value, ordered, text)
    ensures multiset(CanonFields(fs, ordered, text)) == multiset(CanonFields(gs, ordered, text))
            <==> multiset(CanonFields(fs[1..], ordered, text)) == multiset(CanonFields(Without(gs, k), ordered, text))
  {
    CanonFieldsWithout(gs, k, ordered, text);
    SameHead(multiset{Field(fs[0].name, Canon(fs[0].value, ordered, text))},
             multiset(CanonFields(fs[1..], ordered, text)),
             multiset(CanonFields(Without(gs, k), ordered, text)));
  }

  lemma {:induction false} CanonFieldsTry(fs: seq<Field>, gs: seq<Field>, k: nat, ordered: bool, text: Json -> string)
    requires AllFieldsWellFormed(fs) && AllFieldsWellFormed(gs) && TextDetermines(text)
    requires fs != [] && k < |gs| && fs[0].name == gs[k].name
    ensures Equiv(fs[0].value, gs[k].value, ordered)
        <==> Canon(fs[0].value, ordered, text) == Canon(gs[k].value, ordered, text)
    ensures Equiv(fs[0].value, gs[k].value, ordered) ==>
              (multiset(CanonFields(fs, ordered, text)) == multiset(CanonFields(gs, ordered, text))
               <==> EquivFields(fs[1..], Without(gs, k), ordered))
    decreases fs, 0
  {
    CanonDecides(fs[0].value, gs[k].value, ordered, text);
    if Equiv(fs[0].value, gs[k].value, ordered) {
      CanonFieldsMatch(fs, gs, k, ordered, text);
      CanonFieldsDecide(fs[1..], Without(gs, k), ordered, text);
    }
  }

  lemma EquivFieldsPartner(fs: seq<Field>, gs: seq<Field>, ordered: bool) returns (k: nat)
    requires fs != [] && EquivFields(fs, gs, ordered)
    ensures k < |gs| && fs[0].name == gs[k].name && Equiv(fs[0].value, gs[k].value, ordered)
    ensures EquivFields(fs[1..], Without(gs, k), ordered)
  {
    k :| k < |gs| && fs[0].name == gs[k].name && Equiv(fs[0].value, gs[k].value, ordered)
         && EquivFields(fs[1..], Without(gs, k), ordered);
  }

  lemma {:induction false} CanonFieldsDecide(fs: seq<Field>, gs: seq<Field>, ordered: bool, text: Json -> string)
    requires AllFieldsWellFormed(fs) && AllFieldsWellFormed(gs) && TextDetermines(text)
    ensures multiset(CanonFields(fs, ordered, text)) == multiset(CanonFields(gs, ordered, text))
            <==> EquivFields(fs, gs, ordered)
    decreases fs, 1
  {
    var cs, ds := CanonFields(fs, ordered, text), CanonFields(gs, ordered, text);
    CanonFieldsAt(gs, ordered, text);
    if fs == [] {
      if gs != [] { assert ds[0] in multiset(ds); }
    } else {
      if multiset(cs) == multiset(ds) {
        assert cs[0] in multiset(cs);
        var k: nat :| k < |ds| && ds[k] == cs[0];
        CanonFieldsTry(fs, gs, k, ordered, text);
      }
      if EquivFields(fs, gs, ordered) {
        var k := EquivFieldsPartner(fs, gs, ordered);
        CanonFieldsTry(fs, gs, k, ordered, text);
      }
    }
  }

  // ---- _scalar then _canonical_collection ----

  /** The value with every float replaced by its text and nothing moved. */
  ghost function Textual(v: Json): Json
    decreases v
  {
    match v
    case Float(repr) => Str(repr)
    case Arr(items) => Arr(seq(|items|, i requires 0 <= i < |items| => Textual(items[i])))
    case Obj(fields) =>
      Obj(seq(|fields|, i requires 0 <= i < |fields| => Field(fields[i].name, Textual(fields[i].value))))
    case _ => v
  }

  lemma {:induction false} TextualWellFormed(v: Json)
    requires WellFormed(v)
    ensures WellFormed(Textual(v)) && FloatFree(Textual(v))
    ensures FloatFree(v) ==> Textual(v) == v
    decreases v
  {
    match v
    case Arr(items) =>
      forall i | 0 <= i < |items|
        ensures WellFormed(Textual(items[i])) && FloatFree(Textual(items[i]))
        ensures FloatFree(v) ==> Textual(items[i]) == items[i]
      {
        TextualWellFormed(items[i]);
      }
      assert FloatFree(v) ==> Textual(v).items == items;
    case Obj(fields) =>
      forall i | 0 <= i < |fields|
        ensures WellFormed(Textual(fields[i].value)) && FloatFree(Textual(fields[i].value))
        ensures FloatFree(v) ==> Textual(fields[i].value) == fields[i].value
      {
        TextualWellFormed(fields[i].value);
      }
      assert FloatFree(v) ==> Textual(v).fields == fields;
    case _ =>
  }

  /** Canonicalising fields does not depend on their order, up to their order. */
  lemma {:induction false} CanonFieldsPermuted(fs: seq<Field>, gs: seq<Field>, ordered: bool, text: Json -> string)
    requires multiset(fs) == multiset(gs)
    ensures multiset(CanonFields(fs, ordered, text)) == multiset(CanonFields(gs, ordered, text))
    decreases |fs|
  {
    if fs == [] {
      assert |multiset(gs)| == |gs|;
    } else {
      assert fs[0] in multiset(fs);
      var k: nat :| k < |gs| && gs[k] == fs[0];
      WithoutMultiset(gs, k);
      WithoutMultiset(fs, 0);
      assert Without(fs, 0) == fs[1..];
      SameHead(multiset{fs[0]}, multiset(fs[1..]), multiset(Without(gs, k)));
      CanonFieldsPermuted(fs[1..], Without(gs, k), ordered, text);
      CanonFieldsMatch(fs, gs, k, ordered, text);
    }
  }

  lemma {:induction false} ScalarFieldsAt(fs: seq<Field>)
    ensures |ScalarFields(fs)| == |fs|
    ensures forall i :: 0 <= i < |fs| ==> ScalarFields(fs)[i] == Field(fs[i].name, Scalar(fs[i].value))
  {
    if fs != [] { ScalarFieldsAt(fs[1..]); }
  }

  lemma {:induction false} ScalarItemsAt(xs: seq<Json>)
    ensures |ScalarItems(xs)| == |xs|
    ensures forall i :: 0 <= i < |xs| ==> ScalarItems(xs)[i] == Scalar(xs[i])
  {
    if xs != [] { ScalarItemsAt(xs[1..]); }
  }

  lemma {:induction false} TextualItemsCanon(xs: seq<Json>, ys: seq<Json>, ordered: bool, text: Json -> string)
    requires |xs| == |ys| && forall i :: 0 <= i < |xs| ==> Canon(xs[i], ordered, text) == Canon(ys[i], ordered, text)
    ensures CanonItems(xs, ordered, text) == CanonItems(ys, ordered, text)
  {
    CanonItemsAt(xs, ordered, text);
    CanonItemsAt(ys, ordered, text);
  }

  /** Sorting equal canonical fields by name, one list having been sorted early. */
  lemma {:induction false} EarlySortUndone(fs: seq<Field>, gs: seq<Field>, ordered: bool, text: Json -> string)
    requires |fs| == |gs|
    requires forall i :: 0 <= i < |fs| ==>
               fs[i].name == gs[i].name && Canon(fs[i].value, ordered, text) == Canon(gs[i].value, ordered, text)
    requires forall i, j :: 0 <= i < j < |gs| ==> gs[i].name != gs[j].name
    ensures SortBy(CanonFields(SortBy(fs, NameOf), ordered, text), NameOf)
        == SortBy(CanonFields(gs, ordered, text), NameOf)
  {
    CanonFieldsAt(fs, ordered, text);
    CanonFieldsAt(gs, ordered, text);
    assert CanonFields(fs, ordered, text) == CanonFields(gs, ordered, text);
    CanonFieldsPermuted(fs, SortBy(fs, NameOf), ordered, text);
    DistinctNames(CanonFields(gs, ordered, text));
    SortByMultiset(CanonFields(gs, ordered, text), CanonFields(SortBy(fs, NameOf), ordered, text), NameOf);
  }

  /** The early key sort in `_scalar` is undone by the later canonicalisation. */
  lemma {:induction false} NormIsCanon(v: Json, ordered: bool, text: Json -> string)
    requires WellFormed(v)
    ensures Norm(v, ordered, text) == Canon(Textual(v), ordered, text)
    decreases v, 1
  {
    match v
    case Arr(items) => NormArrIsCanon(v, ordered, text);
    case Obj(fields) => NormObjIsCanon(v, ordered, text);
    case _ =>
  }

  lemma {:induction false} NormArrIsCanon(v: Json, ordered: bool, text: Json -> string)
    requires v.Arr? && WellFormed(v)
    ensures Norm(v, ordered, text) == Canon(Textual(v), ordered, text)
    decreases v, 0
  {
    var xs, ys := ScalarItems(v.items), Textual(v).items;
    ScalarItemsAt(v.items);
    forall i | 0 <= i < |xs| ensures Canon(xs[i], ordered, text) == Canon(ys[i], ordered, text) {
      NormIsCanon(v.items[i], ordered, text);
    }
    TextualItemsCanon(xs, ys, ordered, text);
  }

  lemma {:induction false} NormObjIsCanon(v: Json, ordered: bool, text: Json -> string)
    requires v.Obj? && WellFormed(v)
    ensures Norm(v, ordered, text) == Canon(Textual(v), ordered, text)
    decreases v, 0
  {
    var fs, gs := ScalarFields(v.fields), Textual(v).fields;
    ScalarFieldsAt(v.fields);
    forall i | 0 <= i < |fs|
      ensures fs[i].name == gs[i].name && Canon(fs[i].value, ordered, text) == Canon(gs[i].value, ordered, text)
    {
      NormIsCanon(v.fields[i].value, ordered, text);
    }
    EarlySortUndone(fs, gs, ordered, text);
  }

  /** Main result: two values normalise alike exactly when they are equal up to
      reordering, once floats have become text. */
  lemma NormDecides(v: Json, w: Json, ordered: bool, text: Json -> string)
    requires WellFormed(v) && WellFormed(w) && TextDetermines(text)
    ensures Norm(v, ordered, text) == Norm(w, ordered, text) <==> Equiv(Textual(v), Textual(w), ordered)
    ensures FloatFree(v) && FloatFree(w) ==>
              (Norm(v, ordered, text) == Norm(w, ordered, text) <==> Equiv(v, w, ordered))
  {
    NormIsCanon(v, ordered, text);
    NormIsCanon(w, ordered, text);
    TextualWellFormed(v);
    TextualWellFormed(w);
    CanonDecides(Textual(v), Textual(w), ordered, text);
  }

  /** Floats are where the two part: 1.5 and "1.5" differ and normalise alike. */
  lemma FloatCollides(ordered: bool, text: Json -> string)
    ensures !Equiv(Float("1.5"), Str("1.5"), ordered)
    ensures Norm(Float("1.5"), ordered, text) == Norm(Str("1.5"), ordered, text)
  {
  }

  /** A value its own canonicalisation leaves alone. */
  ghost predicate Fixed(v: Json, ordered: bool, text: Json -> string) {
    Canon(v, ordered, text) == v && WellFormed(v) && FloatFree(v)
  }

  lemma {:induction false} FixedItems(cs: seq<Json>, ordered: bool, text: Json -> string)
    requires forall i :: 0 <= i < |cs| ==> Fixed(cs[i], ordered, text)
    requires ordered || SortedBy(cs, text)
    requires TextDetermines(text)
    ensures Fixed(Arr(cs), ordered, text)
  {
    CanonItemsAt(cs, ordered, text);
    assert CanonItems(cs, ordered, text) == cs;
    CanonItemsSorted(cs, ordered, text);
    if !ordered { SortedUnique(cs, SortBy(cs, text), text); }
  }

  lemma {:induction false} FixedFields(cs: seq<Field>, ordered: bool, text: Json -> string)
    requires forall i :: 0 <= i < |cs| ==> Fixed(cs[i].value, ordered, text)
    requires SortedBy(cs, NameOf) && forall i, j :: 0 <= i < j < |cs| ==> cs[i].name != cs[j].name
    ensures Fixed(Obj(cs), ordered, text)
  {
    CanonFieldsAt(cs, ordered, text);
    assert CanonFields(cs, ordered, text) == cs;
    DistinctNames(cs);
    SortedUnique(cs, SortBy(cs, NameOf), NameOf);
  }

  lemma {:induction false} CanonIdempotent(v: Json, ordered: bool, text: Json -> string)
    requires WellFormed(v) && FloatFree(v) && TextDetermines(text)
    ensures Fixed(Canon(v, ordered, text), ordered, text)
    decreases v, 1
  {
    match v
    case Arr(items) => CanonArrIdempotent(v, ordered, text);
    case Obj(fields) => CanonObjIdempotent(v, ordered, text);
    case _ =>
  }

  lemma {:induction false} CanonArrIdempotent(v: Json, ordered: bool, text: Json -> string)
    requires v.Arr? && WellFormed(v) && FloatFree(v) && TextDetermines(text)
    ensures Fixed(Canon(v, ordered, text), ordered, text)
    decreases v, 0
  {
    var cs, r := CanonItems(v.items, ordered, text), Canon(v, ordered, text).items;
    CanonItemsAt(v.items, ordered, text);
    forall i | 0 <= i < |r| ensures Fixed(r[i], ordered, text) {
      assert r[i] in multiset(r);
      var k :| 0 <= k < |cs| && cs[k] == r[i];
      CanonIdempotent(v.items[k], ordered, text);
    }
    FixedItems(r, ordered, text);
  }

  lemma {:induction false} CanonObjIdempotent(v: Json, ordered: bool, text: Json -> string)
    requires v.Obj? && WellFormed(v) && FloatFree(v) && TextDetermines(text)
    ensures Fixed(Canon(v, ordered, text), ordered, text)
    decreases v, 0
  {
    var cs, r := CanonFields(v.fields, ordered, text), Canon(v, ordered, text).fields;
    CanonFieldsAt(v.fields, ordered, text);
    DistinctAfterSort(cs);
    forall i | 0 <= i < |r| ensures Fixed(r[i].value, ordered, text) {
      assert r[i] in multiset(r);
      var k :| 0 <= k < |cs| && cs[k] == r[i];
      CanonIdempotent(v.fields[k].value, ordered, text);
    }
    FixedFields(r, ordered, text);
  }

  /** Normalising twice is normalising once. */
  lemma NormIdempotent(v: Json, ordered: bool, text: Json -> string)
    requires WellFormed(v) && TextDetermines(text)
    ensures Norm(Norm(v, ordered, text), ordered, text) == Norm(v, ordered, text)
  {
    NormIsCanon(v, ordered, text);
    TextualWellFormed(v);
    CanonIdempotent(Textual(v), ordered, text);
    NormIsCanon(Norm(v, ordered, text), ordered, text);
    TextualWellFormed(Norm(v, ordered, text));
  }

  // ---- normalize_for_comparison ----

  /** `data.get(field)` on a dict; None when absent or when data is no dict. */
  function Get(data: Json, name: string): Json {
    if data.Obj? then GetField(data.fields, name) else Null
  }

  function GetField(fs: seq<Field>, name: string): Json {
    if fs == [] then Null else if fs[0].name == name then fs[0].value else GetField(fs[1..], name)
  }

  /** The comparison rules: the fields compared for each tool, and the fields
      whose array order is kept. */
  datatype Rules = Rules(fields: map<string, seq<string>>, significant: set<(string, string)>)

  ghost function Projection(rules: Rules, tool: string, data: Json, text: Json -> string): map<string, Json>
    requires tool in rules.fields
  {
    map f | f in rules.fields[tool] :: Norm(Get(data, f), (tool, f) in rules.significant, text)
  }

  method NormalizeForComparison(rules: Rules, tool: string, data: Json, text: Json -> string)
    returns (r: Result<map<string, Json>, string>)
    ensures tool !in rules.fields ==> r == Err("UNKNOWN_COMPARISON_TOOL")
    ensures tool in rules.fields ==> r == Ok(Projection(rules, tool, data, text))
  {
    if tool !in rules.fields {
      return Err("UNKNOWN_COMPARISON_TOOL");
    }
    var fields := rules.fields[tool];
    var source := if data.Obj? then data else Obj([]);
    var normalized: map<string, Json> := map[];
    for i := 0 to |fields|
      invariant normalized
             == map f | f in fields[..i] :: Norm(Get(data, f), (tool, f) in rules.significant, text)
    {
      normalized := normalized[fields[i] := Norm(Get(source, fields[i]), (tool, fields[i]) in rules.significant, text)];
      assert fields[..i + 1] == fields[..i] + [fields[i]];
    }
    assert fields[..|fields|] == fields;
    r := Ok(normalized);
  }

  /** A field is what the dict holds under its name, and null when it is not there. */
  lemma {:induction false} GetFieldAt(fs: seq<Field>, k: nat)
    requires k < |fs| && forall i :: 0 <= i < k ==> fs[i].name != fs[k].name
    ensures GetField(fs, fs[k].name) == fs[k].value
  {
    if k > 0 { GetFieldAt(fs[1..], k - 1); }
  }

  lemma {:induction false} GetFieldAbsent(fs: seq<Field>, name: string)
    requires forall i :: 0 <= i < |fs| ==> fs[i].name != name
    ensures GetField(fs, name) == Null
  {
    if fs != [] { GetFieldAbsent(fs[1..], name); }
  }

  lemma {:induction false} GetFieldWellFormed(fs: seq<Field>, name: string)
    requires AllFieldsWellFormed(fs)
    ensures WellFormed(GetField(fs, name))
  {
    if fs != [] {
      assert AllFieldsWellFormed(fs[1..]);
      GetFieldWellFormed(fs[1..], name);
    }
  }

  /** Two results compare equal for a tool exactly when every compared field is
      equal up to the reordering allowed for that field. */
  lemma ComparisonDecides(rules: Rules, tool: string, a: Json, b: Json, text: Json -> string)
    requires tool in rules.fields && WellFormed(a) && WellFormed(b) && TextDetermines(text)
    ensures Projection(rules, tool, a, text) == Projection(rules, tool, b, text)
            <==> forall f | f in rules.fields[tool] ::
                   Equiv(Textual(Get(a, f)), Textual(Get(b, f)), (tool, f) in rules.significant)
  {
    var p, q := Projection(rules, tool, a, text), Projection(rules, tool, b, text);
    forall f | f in rules.fields[tool]
      ensures p[f] == q[f] <==> Equiv(Textual(Get(a, f)), Textual(Get(b, f)), (tool, f) in rules.significant)
    {
      if a.Obj? { GetFieldWellFormed(a.fields, f); }
      if b.Obj? { GetFieldWellFormed(b.fields, f); }
      NormDecides(Get(a, f), Get(b, f), (tool, f) in rules.significant, text);
    }
  }
}
