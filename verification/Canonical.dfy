/** The form of a document that is hashed, and why it stands for the document and for no other. */
module Canonical {
  import opened Wrappers
  import opened Ordering
  import opened Json
  import opened JsonRoundTrip

  const MAX_SAFE_INT := 9_007_199_254_740_991

  // ----- the order of keys ---------------------------------------------------------------------

  /** Text order, character by character. */
  predicate TextLe(a: string, b: string) {
    a == [] || (b != [] && (a[0] < b[0] || (a[0] == b[0] && TextLe(a[1..], b[1..]))))
  }

  lemma {:induction false} TextTotal(a: string, b: string)
    ensures TextLe(a, b) || TextLe(b, a)
    ensures TextLe(a, b) && TextLe(b, a) ==> a == b
  {
    if a != [] && b != [] {
      TextTotal(a[1..], b[1..]);
      assert a == [a[0]] + a[1..] && b == [b[0]] + b[1..];
    }
  }

  lemma {:induction false} TextTransitive(a: string, b: string, c: string)
    requires TextLe(a, b) && TextLe(b, c)
    ensures TextLe(a, c)
  {
    if a != [] {
      if a[0] == b[0] && b[0] == c[0] {
        TextTransitive(a[1..], b[1..], c[1..]);
      }
    }
  }

  /** Where two texts first differ, with the smaller character in the first. */
  ghost predicate SmallerAt(a: string, b: string, k: int) {
    0 <= k < |a| && k < |b| && a[k] < b[k] && forall j :: 0 <= j < k ==> a[j] == b[j]
  }

  lemma SmallerFurther(a: string, b: string, c: char, k: int)
    requires SmallerAt(a, b, k)
    ensures SmallerAt([c] + a, [c] + b, k + 1)
  {
  }

  lemma SmallerCloser(a: string, b: string, c: char, k: int)
    requires SmallerAt([c] + a, [c] + b, k)
    ensures SmallerAt(a, b, k - 1)
  {
    forall j | 0 <= j < k - 1 ensures a[j] == b[j] {
      assert ([c] + a)[j + 1] == ([c] + b)[j + 1];
    }
  }

  /** One text comes before another when it begins it, or has the smaller character where they first differ. */
  lemma {:induction false} TextLeIs(a: string, b: string)
    ensures TextLe(a, b) <==> a <= b || exists k :: SmallerAt(a, b, k)
  {
    if a != [] && b != [] {
      if a[0] == b[0] {
        var c, s, t := a[0], a[1..], b[1..];
        TextLeIs(s, t);
        assert a == [c] + s && b == [c] + t;
        if k :| SmallerAt(s, t, k) {
          SmallerFurther(s, t, c, k);
        }
        if k :| SmallerAt(a, b, k) {
          SmallerCloser(s, t, c, k);
        }
      } else if a[0] < b[0] {
        assert SmallerAt(a, b, 0);
      }
    }
  }

  predicate ByName(a: Field, b: Field) { TextLe(a.name, b.name) }

  lemma ByNameIsOrder()
    ensures Preorder(ByName)
  {
    forall a: Field, b: Field ensures ByName(a, b) || ByName(b, a) {
      TextTotal(a.name, b.name);
    }
    forall a: Field, b: Field, c: Field | ByName(a, b) && ByName(b, c) ensures ByName(a, c) {
      TextTransitive(a.name, b.name, c.name);
    }
  }

  // ----- documents -----------------------------------------------------------------------------

  /** The values in a document that hold no others. */
  ghost predicate Holds(d: Doc, leaf: Doc)
    decreases d
  {
    match d
    case Arr(items) => exists i :: 0 <= i < |items| && Holds(items[i], leaf)
    case Obj(fields) => exists i :: 0 <= i < |fields| && Holds(fields[i].value, leaf)
    case _ => d == leaf
  }

  /** A document may be written when it holds no float and only integers below 2**53 either way. */
  lemma {:induction false} WritableExactly(d: Doc)
    ensures Writable(d) <==>
              forall leaf :: Holds(d, leaf) ==>
                !leaf.Float? && (leaf.Num? ==> -9_007_199_254_740_992 < leaf.n < 9_007_199_254_740_992)
    decreases d
  {
    match d
    case Arr(items) =>
      forall i | 0 <= i < |items| { WritableExactly(items[i]); }
    case Obj(fields) =>
      forall i | 0 <= i < |fields| { WritableExactly(fields[i].value); }
    case _ =>
      assert forall leaf :: Holds(d, leaf) <==> d == leaf;
  }

  /** A dictionary has a key once. */
  ghost predicate KeysDiffer(fields: seq<Field>) {
    forall i, j :: 0 <= i < j < |fields| ==> fields[i].name != fields[j].name
  }

  /** A document a program can hold: every object's keys differ. */
  ghost predicate Proper(d: Doc)
    decreases d
  {
    match d
    case Arr(items) => forall i :: 0 <= i < |items| ==> Proper(items[i])
    case Obj(fields) => KeysDiffer(fields) && forall i :: 0 <= i < |fields| ==> Proper(fields[i].value)
    case _ => true
  }

  /** What the printer accepts: no float, and no integer a JSON reader may not hold. */
  predicate Writable(d: Doc)
    decreases d
  {
    match d
    case Float(_) => false
    case Num(n) => -MAX_SAFE_INT <= n <= MAX_SAFE_INT
    case Arr(items) => forall i :: 0 <= i < |items| ==> Writable(items[i])
    case Obj(fields) => forall i :: 0 <= i < |fields| ==> Writable(fields[i].value)
    case _ => true
  }

  /** The same document: objects compare by what each key holds, whatever order they were built in. */
  ghost predicate Same(a: Doc, b: Doc)
    decreases a
  {
    match (a, b)
    case (Arr(x), Arr(y)) => |x| == |y| && forall i :: 0 <= i < |x| ==> Same(x[i], y[i])
    case (Obj(x), Obj(y)) =>
      && |x| == |y|
      && forall i :: 0 <= i < |x| ==> exists j :: 0 <= j < |y| && x[i].name == y[j].name && Same(x[i].value, y[j].value)
    case (Arr(_), _) => false
    case (Obj(_), _) => false
    case _ => a == b
  }

  // ----- printing ------------------------------------------------------------------------------

  /** One key of an object, and its value's text. */
  datatype Entry = Entry(name: string, text: string)

  predicate ByKey(a: Entry, b: Entry) { TextLe(a.name, b.name) }

  function EntryText(e: Entry): string { FieldText(e.name, e.text) }

  /** The text of a document at a depth, an object's entries sorted by key. */
  function Emit(d: Doc, depth: nat): string
    decreases d
  {
    match d
    case Arr(items) =>
      var texts := EmitItems(items, depth + 1);
      if forall i :: 0 <= i < |items| ==> Scalar(items[i]) then Line(texts) else Block("[", texts, depth, "]")
    case Obj(fields) =>
      if fields == [] then "{}"
      else
        SortHolds(ByKey, EmitFields(fields, depth + 1));
        Block("{", EntryTexts(Sort(ByKey, EmitFields(fields, depth + 1))), depth, "}")
    case _ => Printed(d, depth)
  }

  function EmitItems(items: seq<Doc>, depth: nat): seq<string>
    decreases items
  {
    seq(|items|, i requires 0 <= i < |items| => Emit(items[i], depth))
  }

  function EmitFields(fields: seq<Field>, depth: nat): seq<Entry>
    decreases fields
  {
    seq(|fields|, i requires 0 <= i < |fields| => Entry(fields[i].name, Emit(fields[i].value, depth)))
  }

  function EntryTexts(entries: seq<Entry>): seq<string> {
    seq(|entries|, i requires 0 <= i < |entries| => EntryText(entries[i]))
  }

  /** The bytes that are hashed, as text; nothing for a document that may not be written. */
  function Canonical(d: Doc): Option<string> {
    if Writable(d) then Some(Emit(d, 0) + "\n") else None
  }

  // ----- what the bytes stand for --------------------------------------------------------------

  /** The document with every object's fields in the order of their keys. */
  function Ordered(d: Doc): Doc
    decreases d
  {
    match d
    case Arr(items) => Arr(OrderedItems(items))
    case Obj(fields) => Obj(Sort(ByName, OrderedFields(fields)))
    case _ => d
  }

  function OrderedItems(items: seq<Doc>): seq<Doc>
    decreases items
  {
    seq(|items|, i requires 0 <= i < |items| => Ordered(items[i]))
  }

  function OrderedFields(fields: seq<Field>): seq<Field>
    decreases fields
  {
    seq(|fields|, i requires 0 <= i < |fields| => Field(fields[i].name, Ordered(fields[i].value)))
  }

  /** What a field is printed from, at a depth. */
  function EntryOf(depth: nat): Field -> Entry {
    (f: Field) => Entry(f.name, Printed(f.value, depth))
  }

  /** The printer sorts as it goes; that is printing the sorted document. */
  lemma {:induction false} EmitIsPrinted(d: Doc, depth: nat)
    ensures Emit(d, depth) == Printed(Ordered(d), depth)
    decreases d
  {
    match d
    case Arr(items) =>
      forall i | 0 <= i < |items| ensures Emit(items[i], depth + 1) == Printed(Ordered(items[i]), depth + 1) {
        EmitIsPrinted(items[i], depth + 1);
      }
      assert EmitItems(items, depth + 1) == ItemTexts(OrderedItems(items), depth + 1);
      assert forall i :: 0 <= i < |items| ==> Scalar(OrderedItems(items)[i]) == Scalar(items[i]);
    case Obj(fields) =>
      forall i | 0 <= i < |fields|
        ensures Emit(fields[i].value, depth + 1) == Printed(Ordered(fields[i].value), depth + 1)
      {
        EmitIsPrinted(fields[i].value, depth + 1);
      }
      FieldsArePrinted(fields, depth);
    case _ =>
  }

  lemma FieldsArePrinted(fields: seq<Field>, depth: nat)
    requires forall i :: 0 <= i < |fields| ==>
                  Emit(fields[i].value, depth + 1) == Printed(Ordered(fields[i].value), depth + 1)
    ensures Emit(Obj(fields), depth) == Printed(Ordered(Obj(fields)), depth)
  {
    var ordered := OrderedFields(fields);
    EntriesArePrinted(fields, depth + 1);
    SortMapped(EntryOf(depth + 1), ByName, ByKey, ordered);
    SortHolds(ByName, ordered);
    TextsArePrinted(Sort(ByName, ordered), depth + 1);
  }

  lemma EntriesArePrinted(fields: seq<Field>, depth: nat)
    requires forall i :: 0 <= i < |fields| ==> Emit(fields[i].value, depth) == Printed(Ordered(fields[i].value), depth)
    ensures EmitFields(fields, depth) == Mapped(EntryOf(depth), OrderedFields(fields))
  {
  }

  lemma TextsArePrinted(fields: seq<Field>, depth: nat)
    ensures EntryTexts(Mapped(EntryOf(depth), fields)) == FieldTexts(fields, depth)
  {
  }

  lemma {:induction false} OrderedIsFloatFree(d: Doc)
    requires Writable(d)
    ensures FloatFree(Ordered(d))
    decreases d
  {
    match d
    case Arr(items) =>
      forall i | 0 <= i < |items| ensures FloatFree(OrderedItems(items)[i]) {
        OrderedIsFloatFree(items[i]);
      }
    case Obj(fields) =>
      var ordered := OrderedFields(fields);
      SortHolds(ByName, ordered);
      forall i | 0 <= i < |fields| ensures FloatFree(ordered[i].value) {
        OrderedIsFloatFree(fields[i].value);
      }
      forall k | 0 <= k < |Sort(ByName, ordered)| ensures FloatFree(Sort(ByName, ordered)[k].value) {
        assert Sort(ByName, ordered)[k] in ordered;
      }
    case _ =>
  }

  /** The canonical bytes parse back to the document, its keys in order. */
  lemma CanonicalParsesBack(d: Doc)
    requires Writable(d)
    ensures Canonical(d).Some? && Parse(Canonical(d).value) == Some(Ordered(d))
  {
    EmitIsPrinted(d, 0);
    OrderedIsFloatFree(d);
    ParsePrinted(Ordered(d));
  }

  // ----- equal bytes, equal documents ----------------------------------------------------------

  /** Two objects that order alike hold, for each field of one, its equal in the other. */
  lemma MatchingField(x: seq<Field>, y: seq<Field>, i: nat) returns (j: nat)
    requires Sort(ByName, OrderedFields(x)) == Sort(ByName, OrderedFields(y)) && i < |x|
    ensures |x| == |y| && j < |y| && x[i].name == y[j].name && Ordered(x[i].value) == Ordered(y[j].value)
  {
    var ox, oy := OrderedFields(x), OrderedFields(y);
    SortHolds(ByName, ox);
    SortHolds(ByName, oy);
    assert ox[i] in oy;
    j :| 0 <= j < |oy| && oy[j] == ox[i];
  }

  lemma {:induction false} OrderedIsSame(a: Doc, b: Doc)
    requires Ordered(a) == Ordered(b)
    ensures Same(a, b)
    decreases a, 1
  {
    match (a, b)
    case (Arr(x), Arr(y)) =>
      assert |x| == |OrderedItems(x)| == |OrderedItems(y)| == |y|;
      forall i | 0 <= i < |x| ensures Same(x[i], y[i]) {
        assert OrderedItems(x)[i] == OrderedItems(y)[i];
        OrderedIsSame(x[i], y[i]);
      }
    case (Obj(x), Obj(y)) =>
      ObjectsAreSame(x, y, a);
    case _ =>
  }

  lemma {:induction false} ObjectsAreSame(x: seq<Field>, y: seq<Field>, a: Doc)
    requires a == Obj(x) && Sort(ByName, OrderedFields(x)) == Sort(ByName, OrderedFields(y))
    ensures Same(Obj(x), Obj(y))
    decreases a, 0
  {
    SortHolds(ByName, OrderedFields(x));
    SortHolds(ByName, OrderedFields(y));
    forall i | 0 <= i < |x|
      ensures exists j :: 0 <= j < |y| && x[i].name == y[j].name && Same(x[i].value, y[j].value)
    {
      var j := MatchingField(x, y, i);
      OrderedIsSame(x[i].value, y[j].value);
    }
  }

  lemma {:induction false} MatchedFields(x: seq<Field>, y: seq<Field>)
    requires KeysDiffer(x) && |x| == |y| && forall f :: f in x ==> f in y
    ensures multiset(x) == multiset(y)
    decreases |x|
  {
    if x != [] {
      assert x[0] in y;
      var j :| 0 <= j < |y| && y[j] == x[0];
      var rest := y[..j] + y[j + 1..];
      assert y == y[..j] + ([y[j]] + y[j + 1..]);
      forall f | f in x[1..] ensures f in rest {
        var k :| 1 <= k < |x| && x[k] == f;
        assert f.name != x[0].name && x[k] in x;
        var m :| 0 <= m < |y| && y[m] == f;
        assert m < j || m > j;
        assert f in y[..j] || f in y[j + 1..];
      }
      MatchedFields(x[1..], rest);
      assert x == [x[0]] + x[1..];
    }
  }

  lemma NamesTell(x: seq<Field>)
    requires KeysDiffer(x)
    ensures NoTies(ByName, multiset(x))
  {
    forall f, g | f in multiset(x) && g in multiset(x) && ByName(f, g) && ByName(g, f) ensures f == g {
      TextTotal(f.name, g.name);
      var i :| 0 <= i < |x| && x[i] == f;
      var j :| 0 <= j < |x| && x[j] == g;
    }
  }

  lemma {:induction false} SameIsOrdered(a: Doc, b: Doc)
    requires Proper(a) && Proper(b) && Same(a, b)
    ensures Ordered(a) == Ordered(b)
    decreases a
  {
    match (a, b)
    case (Arr(x), Arr(y)) =>
      forall i | 0 <= i < |x| ensures Ordered(x[i]) == Ordered(y[i]) {
        SameIsOrdered(x[i], y[i]);
      }
      assert OrderedItems(x) == OrderedItems(y);
    case (Obj(x), Obj(y)) =>
      var ox, oy := OrderedFields(x), OrderedFields(y);
      forall i | 0 <= i < |x| ensures ox[i] in oy {
        var j :| 0 <= j < |y| && x[i].name == y[j].name && Same(x[i].value, y[j].value);
        SameIsOrdered(x[i].value, y[j].value);
        assert oy[j] == ox[i];
      }
      SortsAlike(ox, oy);
    case _ =>
  }

  lemma SortsAlike(x: seq<Field>, y: seq<Field>)
    requires KeysDiffer(x) && |x| == |y| && forall i :: 0 <= i < |x| ==> x[i] in y
    ensures Sort(ByName, x) == Sort(ByName, y)
  {
    MatchedFields(x, y);
    NamesTell(x);
    ByNameIsOrder();
    SortIgnoresOrder(ByName, x, y);
  }

  /** Two documents have the same bytes exactly when they are the same document, whatever order their
      keys were put in. */
  lemma EqualBytesEqualDocuments(a: Doc, b: Doc)
    requires Proper(a) && Proper(b) && Writable(a) && Writable(b)
    ensures Canonical(a) == Canonical(b) <==> Same(a, b)
  {
    CanonicalParsesBack(a);
    CanonicalParsesBack(b);
    EmitIsPrinted(a, 0);
    EmitIsPrinted(b, 0);
    if Canonical(a) == Canonical(b) {
      OrderedIsSame(a, b);
    }
    if Same(a, b) {
      SameIsOrdered(a, b);
    }
  }
}
