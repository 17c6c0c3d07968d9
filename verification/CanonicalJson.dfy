/** Canonical JSON: objects with their keys in ascending order, at every level. */
module CanonicalJson {
  import opened Options

  /** A document; an object is a list of fields in the order in which it keeps them. */
  datatype Value =
    | Null | Flag(on: bool) | Number(literal: string) | Text(s: string) | List(items: Values) | Object(fields: Fields)

  datatype Values = NoValues | Cons(head: Value, tail: Values)

  datatype Fields = NoFields | Field(key: string, value: Value, rest: Fields)

  // ----- the order of keys -----

  predicate Less(a: string, b: string)
  {
    b != [] && (a == [] || a[0] < b[0] || (a[0] == b[0] && Less(a[1..], b[1..])))
  }

  lemma {:induction false} LessTotal(a: string, b: string)
    ensures Less(a, b) || a == b || Less(b, a)
    ensures !(Less(a, b) && Less(b, a)) && !Less(a, a)
  {
    if a != [] {
      LessTotal(a[1..], a[1..]);
      if b != [] {
        LessTotal(a[1..], b[1..]);
        assert a == [a[0]] + a[1..] && b == [b[0]] + b[1..];
      }
    }
  }

  lemma {:induction false} LessTransitive(a: string, b: string, c: string)
    requires Less(a, b) && Less(b, c)
    ensures Less(a, c)
  {
    if a != [] && a[0] == b[0] == c[0] {
      LessTransitive(a[1..], b[1..], c[1..]);
    }
  }

  // ----- fields -----

  function Lookup(fields: Fields, key: string): Option<Value>
  {
    match fields
    case NoFields => None
    case Field(k, v, rest) => if k == key then Some(v) else Lookup(rest, key)
  }

  function Length(fields: Fields): nat
  {
    match fields
    case NoFields => 0
    case Field(_, _, rest) => 1 + Length(rest)
  }

  /** Enters a field into ascending fields; a field that is there already came later and stays. */
  function Insert(key: string, value: Value, fields: Fields): Fields
  {
    match fields
    case NoFields => Field(key, value, NoFields)
    case Field(k, v, rest) =>
      if Less(key, k) then Field(key, value, fields)
      else if key == k then fields
      else Field(k, v, Insert(key, value, rest))
  }

  /** `ordered`: the same document with the keys of every object in ascending order. */
  function Ordered(v: Value): Value
  {
    match v
    case List(items) => List(OrderedValues(items))
    case Object(fields) => Object(OrderedFields(fields))
    case _ => v
  }

  function OrderedValues(items: Values): Values
  {
    match items
    case NoValues => NoValues
    case Cons(head, tail) => Cons(Ordered(head), OrderedValues(tail))
  }

  function OrderedFields(fields: Fields): Fields
  {
    match fields
    case NoFields => NoFields
    case Field(k, v, rest) => Insert(k, Ordered(v), OrderedFields(rest))
  }

  /** An object has no key twice. */
  predicate Proper(v: Value)
  {
    match v
    case List(items) => ProperValues(items)
    case Object(fields) => ProperFields(fields)
    case _ => true
  }

  predicate ProperValues(items: Values)
  {
    items.Cons? ==> Proper(items.head) && ProperValues(items.tail)
  }

  predicate ProperFields(fields: Fields)
  {
    fields.Field? ==> Lookup(fields.rest, fields.key).None? && Proper(fields.value) && ProperFields(fields.rest)
  }

  // ----- equality up to the order of keys -----

  /** Equality of documents: objects are equal when they have as many fields and every field of one
      is in the other with an equal value. */
  predicate Same(a: Value, b: Value)
    decreases a
  {
    match a
    case List(items) => b.List? && SameValues(items, b.items)
    case Object(fields) => b.Object? && Length(fields) == Length(b.fields) && FieldsIn(fields, b.fields)
    case _ => a == b
  }

  predicate SameValues(a: Values, b: Values)
    decreases a
  {
    match a
    case NoValues => b.NoValues?
    case Cons(head, tail) => b.Cons? && Same(head, b.head) && SameValues(tail, b.tail)
  }

  predicate FieldsIn(a: Fields, b: Fields)
    decreases a
  {
    match a
    case NoFields => true
    case Field(k, v, rest) => Lookup(b, k).Some? && Same(v, Lookup(b, k).value) && FieldsIn(rest, b)
  }

  // ----- sorted fields -----

  ghost predicate Ascending(fields: Fields)
  {
    fields.Field? ==> Ascending(fields.rest) && forall k :: Lookup(fields.rest, k).Some? ==> Less(fields.key, k)
  }

  lemma {:induction false} InsertKeeps(key: string, value: Value, fields: Fields)
    requires Ascending(fields)
    ensures Ascending(Insert(key, value, fields))
    ensures forall k :: Lookup(Insert(key, value, fields), k) ==
                        (if k == key && Lookup(fields, key).None? then Some(value) else Lookup(fields, k))
    ensures Length(Insert(key, value, fields)) == Length(fields) + (if Lookup(fields, key).None? then 1 else 0)
  {
    match fields
    case NoFields =>
    case Field(k, v, rest) =>
      LessTotal(key, k);
      InsertKeeps(key, value, rest);
      if Less(key, k) {
        forall x | Lookup(fields, x).Some? ensures Less(key, x) && x != key {
          if x != k {
            LessTransitive(key, k, x);
          }
          LessTotal(key, x);
        }
      }
  }

  lemma {:induction false} OrderedKeeps(fields: Fields)
    requires ProperFields(fields)
    ensures Ascending(OrderedFields(fields)) && Length(OrderedFields(fields)) == Length(fields)
    ensures forall k :: Lookup(OrderedFields(fields), k) ==
                        (if Lookup(fields, k).Some? then Some(Ordered(Lookup(fields, k).value)) else None)
  {
    match fields
    case NoFields =>
    case Field(k, v, rest) =>
      OrderedKeeps(rest);
      InsertKeeps(k, Ordered(v), OrderedFields(rest));
  }

  lemma HasFirst(fields: Fields)
    ensures fields.Field? ==> Lookup(fields, fields.key).Some?
  {
  }

  /** Ascending fields are determined by what can be looked up in them. */
  lemma {:induction false} AscendingIsUnique(a: Fields, b: Fields)
    requires Ascending(a) && Ascending(b)
    requires forall k :: Lookup(a, k) == Lookup(b, k)
    ensures a == b
  {
    HasFirst(a);
    HasFirst(b);
    if a.Field? && b.Field? {
      LessTotal(a.key, b.key);
      assert Lookup(b, a.key).Some? && Lookup(a, b.key).Some?;
      assert a.key == b.key;
      LessTotal(a.key, a.key);
      forall k ensures Lookup(a.rest, k) == Lookup(b.rest, k) {
        assert Lookup(a, k) == Lookup(b, k);
      }
      AscendingIsUnique(a.rest, b.rest);
    }
  }

  // ----- canonical forms and equality -----

  function KeysOf(fields: Fields): set<string>
  {
    match fields
    case NoFields => {}
    case Field(k, _, rest) => {k} + KeysOf(rest)
  }

  lemma {:induction false} KeysMean(fields: Fields)
    requires ProperFields(fields)
    ensures |KeysOf(fields)| == Length(fields)
    ensures forall k :: k in KeysOf(fields) <==> Lookup(fields, k).Some?
  {
    if fields.Field? {
      KeysMean(fields.rest);
    }
  }

  lemma SubsetOfSameSize(a: set<string>, b: set<string>)
    requires a <= b && |a| == |b|
    ensures a == b
  {
    assert b == a + (b - a);
  }

  /** Two documents have the same canonical form exactly when they are equal up to the order of keys. */
  lemma {:induction false} OrderedIffSame(a: Value, b: Value)
    requires Proper(a) && Proper(b)
    ensures Ordered(a) == Ordered(b) <==> Same(a, b)
    decreases a
  {
    match a
    case List(items) =>
      if b.List? {
        OrderedValuesIffSame(items, b.items);
      }
    case Object(fields) =>
      if b.Object? {
        FieldsIffSame(fields, b.fields);
      }
    case _ =>
  }

  lemma {:induction false} OrderedValuesIffSame(a: Values, b: Values)
    requires ProperValues(a) && ProperValues(b)
    ensures OrderedValues(a) == OrderedValues(b) <==> SameValues(a, b)
    decreases a
  {
    if a.Cons? && b.Cons? {
      OrderedIffSame(a.head, b.head);
      OrderedValuesIffSame(a.tail, b.tail);
    }
  }

  /** A field of one object has its counterpart in the other. */
  ghost predicate Matches(a: Fields, b: Fields, key: string)
  {
    Lookup(a, key).Some? ==>
      Lookup(b, key).Some? && Ordered(Lookup(a, key).value) == Ordered(Lookup(b, key).value)
  }

  lemma FieldsIffSame(a: Fields, b: Fields)
    requires ProperFields(a) && ProperFields(b)
    ensures OrderedFields(a) == OrderedFields(b) <==> Length(a) == Length(b) && FieldsIn(a, b)
    decreases a, 1
  {
    hide FieldsIn, Ordered, OrderedFields, ProperFields, Ascending, Lookup, Length;
    OrderedKeeps(a);
    OrderedKeeps(b);
    KeysMean(a);
    KeysMean(b);
    forall k ensures FieldsIn(a, b) ==> Matches(a, b, k) {
      FieldsInAt(a, b, k);
    }
    if Length(a) == Length(b) && FieldsIn(a, b) {
      forall k ensures k in KeysOf(a) ==> k in KeysOf(b) {
        assert Matches(a, b, k);
      }
      SubsetOfSameSize(KeysOf(a), KeysOf(b));
      forall k ensures Lookup(OrderedFields(a), k) == Lookup(OrderedFields(b), k) {
        assert Matches(a, b, k);
      }
      AscendingIsUnique(OrderedFields(a), OrderedFields(b));
    }
    if OrderedFields(a) == OrderedFields(b) {
      forall k ensures Matches(a, b, k) {
        assert Lookup(OrderedFields(a), k) == Lookup(OrderedFields(b), k);
      }
      FieldsInAll(a, b);
    }
  }

  lemma {:induction false} FieldsInAt(a: Fields, b: Fields, key: string)
    requires ProperFields(a) && ProperFields(b)
    ensures FieldsIn(a, b) ==> Matches(a, b, key)
    decreases a, 0
  {
    if a.Field? && Lookup(b, a.key).Some? {
      FieldsInAt(a.rest, b, key);
      ProperLookup(b, a.key);
      OrderedIffSame(a.value, Lookup(b, a.key).value);
    }
  }

  lemma {:induction false} FieldsInAll(a: Fields, b: Fields)
    requires ProperFields(a) && ProperFields(b)
    requires forall k :: Matches(a, b, k)
    ensures FieldsIn(a, b)
    decreases a, 0
  {
    if a.Field? {
      assert Matches(a, b, a.key);
      ProperLookup(b, a.key);
      OrderedIffSame(a.value, Lookup(b, a.key).value);
      forall k ensures Matches(a.rest, b, k) {
        assert Matches(a, b, k);
      }
      FieldsInAll(a.rest, b);
    }
  }

  lemma {:induction false} ProperLookup(fields: Fields, key: string)
    requires ProperFields(fields) && Lookup(fields, key).Some?
    ensures Proper(Lookup(fields, key).value)
  {
    if fields.key != key {
      ProperLookup(fields.rest, key);
    }
  }

  /** The canonical form is the document itself up to the order of keys, and is its own canonical form. */
  lemma {:induction false} OrderedIsSame(v: Value)
    requires Proper(v)
    ensures Proper(Ordered(v)) && Ordered(Ordered(v)) == Ordered(v) && Same(v, Ordered(v))
    decreases v
  {
    OrderedTwice(v);
    OrderedIffSame(v, Ordered(v));
  }

  lemma {:induction false} OrderedTwice(v: Value)
    requires Proper(v)
    ensures Proper(Ordered(v)) && Ordered(Ordered(v)) == Ordered(v)
    decreases v
  {
    match v
    case List(items) => OrderedValuesTwice(items);
    case Object(fields) => OrderedFieldsTwice(fields);
    case _ =>
  }

  lemma {:induction false} OrderedValuesTwice(items: Values)
    requires ProperValues(items)
    ensures ProperValues(OrderedValues(items)) && OrderedValues(OrderedValues(items)) == OrderedValues(items)
    decreases items
  {
    if items.Cons? {
      OrderedTwice(items.head);
      OrderedValuesTwice(items.tail);
    }
  }

  lemma {:induction false} OrderedFieldsTwice(fields: Fields)
    requires ProperFields(fields)
    ensures ProperFields(OrderedFields(fields)) && OrderedFields(OrderedFields(fields)) == OrderedFields(fields)
    decreases fields, 1
  {
    OrderedKeeps(fields);
    OrderedValuesFixed(fields);
    FixedStays(OrderedFields(fields));
  }

  /** Every value of the fields is canonical. */
  predicate Fixed(fields: Fields)
  {
    fields.Field? ==> Proper(fields.value) && Ordered(fields.value) == fields.value && Fixed(fields.rest)
  }

  lemma {:induction false} OrderedValuesFixed(fields: Fields)
    requires ProperFields(fields)
    ensures Fixed(OrderedFields(fields))
    decreases fields, 0
  {
    if fields.Field? {
      OrderedTwice(fields.value);
      OrderedValuesFixed(fields.rest);
      InsertFixed(fields.key, Ordered(fields.value), OrderedFields(fields.rest));
    }
  }

  lemma {:induction false} InsertFixed(key: string, value: Value, fields: Fields)
    requires Fixed(fields) && Proper(value) && Ordered(value) == value
    ensures Fixed(Insert(key, value, fields))
  {
    if fields.Field? {
      InsertFixed(key, value, fields.rest);
    }
  }

  lemma {:induction false} FixedStays(fields: Fields)
    requires Ascending(fields) && Fixed(fields)
    ensures ProperFields(fields) && OrderedFields(fields) == fields
  {
    if fields.Field? {
      FixedStays(fields.rest);
      LessTotal(fields.key, fields.key);
      assert fields.rest.Field? ==> Lookup(fields.rest, fields.rest.key).Some?;
    }
  }
}
