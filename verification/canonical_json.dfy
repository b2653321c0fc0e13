/**
 Canonical JSON: objects rebuilt key by key in sorted order. Objects are
 modelled with JavaScript's own enumeration: integer-like keys first, in
 numeric order, then the others in the order they were set.
 */
module CanonicalJson {
  import opened StringOrder

  /** `Leaf` stands for every value returned as it is: strings, numbers, booleans, null, and non-plain objects. */
  datatype Json = Leaf(id: int) | Arr(items: Items) | Obj(fields: Fields)

  datatype Items = Nil | Cons(head: Json, tail: Items)

  /** The own properties of an object, in enumeration order. */
  datatype Fields = End | Field(key: string, value: Json, rest: Fields)

  // ---- keys ----

  const PROTO := "__proto__"

  /** A canonical array index: a decimal numeral below 2^32 - 1. */
  predicate IsIndex(key: string) {
    && 1 <= |key| <= 10
    && (forall c | c in key :: '0' <= c <= '9')
    && (key[0] == '0' ==> |key| == 1)
    && (|key| == 10 ==> LexLess(key, "4294967295"))
  }

  /** Numeric order on canonical numerals: shorter first, then digit by digit. */
  predicate NumLess(a: string, b: string) {
    |a| < |b| || (|a| == |b| && LexLess(a, b))
  }

  /** The order of the keys of a canonical object. */
  predicate EnumLess(a: string, b: string) {
    if IsIndex(a) then !IsIndex(b) || NumLess(a, b)
    else !IsIndex(b) && LexLess(a, b)
  }

  lemma EnumTrichotomy(a: string, b: string)
    ensures EnumLess(a, b) || EnumLess(b, a) || a == b
    ensures EnumLess(a, b) ==> a != b && !EnumLess(b, a)
  {
    LexTrichotomy(a, b);
  }

  lemma EnumTransitive(a: string, b: string, c: string)
    requires EnumLess(a, b) && EnumLess(b, c)
    ensures EnumLess(a, c)
  {
    if LexLess(a, b) && LexLess(b, c) { LexTransitive(a, b, c); }
  }

  function Keys(fields: Fields): set<string> {
    match fields
    case End => {}
    case Field(key, _, rest) => {key} + Keys(rest)
  }

  // ---- canonicalization ----

  /** Assigning a property: replaces it, or adds it where enumeration puts it. Assigning `__proto__` adds none. */
  function Assign(fields: Fields, key: string, value: Json): Fields {
    if key == PROTO then fields
    else
      match fields
      case End => Field(key, value, End)
      case Field(k, v, rest) =>
        if k == key then Field(key, value, rest)
        else if IsIndex(key) && (!IsIndex(k) || NumLess(key, k)) then Field(key, value, fields)
        else Field(k, v, Assign(rest, key, value))
  }

  function InsertByKey(key: string, value: Json, fields: Fields): Fields {
    match fields
    case End => Field(key, value, End)
    case Field(k, v, rest) =>
      if LexLess(key, k) then Field(key, value, fields) else Field(k, v, InsertByKey(key, value, rest))
  }

  /** The properties in the order `Object.keys(value).sort()` visits them. */
  function SortByKey(fields: Fields): Fields {
    match fields
    case End => End
    case Field(key, value, rest) => InsertByKey(key, value, SortByKey(rest))
  }

  function AssignAll(into: Fields, fields: Fields): Fields
    decreases fields
  {
    match fields
    case End => into
    case Field(key, value, rest) => AssignAll(Assign(into, key, value), rest)
  }

  function Canonicalize(j: Json): Json {
    match j
    case Leaf(_) => j
    case Arr(items) => Arr(CanonicalItems(items))
    case Obj(fields) => Obj(AssignAll(End, SortByKey(CanonicalValues(fields))))
  }

  function CanonicalItems(items: Items): Items {
    match items
    case Nil => Nil
    case Cons(head, tail) => Cons(Canonicalize(head), CanonicalItems(tail))
  }

  function CanonicalValues(fields: Fields): Fields {
    match fields
    case End => End
    case Field(key, value, rest) => Field(key, Canonicalize(value), CanonicalValues(rest))
  }

  // ---- meaning ----

  /** A JSON value with objects as unordered maps: equal meanings are trees that differ at most in the order of keys. */
  datatype Meaning = MLeaf(id: int) | MArr(items: seq<Meaning>) | MObj(fields: map<string, Meaning>)

  function MeaningOf(j: Json): Meaning {
    match j
    case Leaf(id) => MLeaf(id)
    case Arr(items) => MArr(ItemMeanings(items))
    case Obj(fields) => MObj(FieldMeanings(fields))
  }

  function ItemMeanings(items: Items): seq<Meaning> {
    match items
    case Nil => []
    case Cons(head, tail) => [MeaningOf(head)] + ItemMeanings(tail)
  }

  function FieldMeanings(fields: Fields): (m: map<string, Meaning>)
    ensures m.Keys == Keys(fields)
  {
    match fields
    case End => map[]
    case Field(key, value, rest) => FieldMeanings(rest)[key := MeaningOf(value)]
  }

  /** A JavaScript tree: no object has a key twice. */
  predicate Proper(j: Json) {
    match j
    case Leaf(_) => true
    case Arr(items) => ProperItems(items)
    case Obj(fields) => ProperFields(fields)
  }

  predicate ProperItems(items: Items) {
    match items
    case Nil => true
    case Cons(head, tail) => Proper(head) && ProperItems(tail)
  }

  predicate ProperFields(fields: Fields) {
    match fields
    case End => true
    case Field(key, value, rest) => key !in Keys(rest) && Proper(value) && ProperFields(rest)
  }

  /** No object in the tree has an own key `__proto__`. */
  predicate NoProto(j: Json) {
    match j
    case Leaf(_) => true
    case Arr(items) => NoProtoItems(items)
    case Obj(fields) => NoProtoFields(fields)
  }

  predicate NoProtoItems(items: Items) {
    match items
    case Nil => true
    case Cons(head, tail) => NoProto(head) && NoProtoItems(tail)
  }

  predicate NoProtoFields(fields: Fields) {
    match fields
    case End => true
    case Field(key, value, rest) => key != PROTO && NoProto(value) && NoProtoFields(rest)
  }

  /** The tree without its `__proto__` properties. */
  function Strip(j: Json): Json {
    match j
    case Leaf(_) => j
    case Arr(items) => Arr(StripItems(items))
    case Obj(fields) => Obj(StripFields(fields))
  }

  function StripItems(items: Items): Items {
    match items
    case Nil => Nil
    case Cons(head, tail) => Cons(Strip(head), StripItems(tail))
  }

  function StripFields(fields: Fields): (r: Fields)
    ensures Keys(r) == Keys(fields) - {PROTO}
  {
    match fields
    case End => End
    case Field(key, value, rest) =>
      if key == PROTO then StripFields(rest) else Field(key, Strip(value), StripFields(rest))
  }

  // ---- normal form ----

  ghost predicate AllAbove(key: string, fields: Fields) {
    forall k | k in Keys(fields) :: EnumLess(key, k)
  }

  /** In enumeration order, without `__proto__`. */
  ghost predicate Ordered(fields: Fields) {
    match fields
    case End => true
    case Field(key, _, rest) => key != PROTO && AllAbove(key, rest) && Ordered(rest)
  }

  ghost predicate LexOrdered(fields: Fields) {
    match fields
    case End => true
    case Field(key, _, rest) => (forall k | k in Keys(rest) :: LexLess(key, k)) && LexOrdered(rest)
  }

  ghost predicate Normal(j: Json) {
    match j
    case Leaf(_) => true
    case Arr(items) => NormalItems(items)
    case Obj(fields) => Ordered(fields) && NormalFields(fields)
  }

  ghost predicate NormalItems(items: Items) {
    match items
    case Nil => true
    case Cons(head, tail) => Normal(head) && NormalItems(tail)
  }

  ghost predicate NormalFields(fields: Fields) {
    match fields
    case End => true
    case Field(_, value, rest) => Normal(value) && NormalFields(rest)
  }

  predicate DistinctKeys(fields: Fields) {
    match fields
    case End => true
    case Field(key, _, rest) => key !in Keys(rest) && DistinctKeys(rest)
  }

  lemma {:induction false} InsertMeaning(key: string, value: Json, fields: Fields)
    requires key !in Keys(fields)
    ensures FieldMeanings(InsertByKey(key, value, fields)) == FieldMeanings(fields)[key := MeaningOf(value)]
    ensures NormalFields(fields) && Normal(value) ==> NormalFields(InsertByKey(key, value, fields))
    decreases fields
  {
    match fields
    case End =>
    case Field(k, v, rest) =>
      if !LexLess(key, k) {
        InsertMeaning(key, value, rest);
        SetsCommute(FieldMeanings(rest), key, MeaningOf(value), k, MeaningOf(v));
      }
  }

  lemma SetsCommute(m: map<string, Meaning>, a: string, x: Meaning, b: string, y: Meaning)
    requires a != b
    ensures m[a := x][b := y] == m[b := y][a := x]
  {}

  lemma {:induction false} InsertLexOrdered(key: string, value: Json, fields: Fields)
    requires key !in Keys(fields) && LexOrdered(fields)
    ensures LexOrdered(InsertByKey(key, value, fields)) && Keys(InsertByKey(key, value, fields)) == Keys(fields) + {key}
    decreases fields
  {
    match fields
    case End =>
    case Field(k, v, rest) =>
      LexTrichotomy(key, k);
      if LexLess(key, k) {
        forall x | x in Keys(fields) ensures LexLess(key, x) {
          if x != k { LexTransitive(key, k, x); }
        }
      } else {
        InsertLexOrdered(key, value, rest);
      }
  }

  lemma {:induction false} SortByKeyKeeps(fields: Fields)
    requires DistinctKeys(fields)
    ensures var r := SortByKey(fields);
            && Keys(r) == Keys(fields) && FieldMeanings(r) == FieldMeanings(fields)
            && LexOrdered(r) && (NormalFields(fields) ==> NormalFields(r))
    decreases fields
  {
    match fields
    case End =>
    case Field(key, value, rest) =>
      SortByKeyKeeps(rest);
      InsertMeaning(key, value, SortByKey(rest));
      InsertLexOrdered(key, value, SortByKey(rest));
  }

  lemma {:induction false} AssignMeaning(fields: Fields, key: string, value: Json)
    requires key != PROTO && key !in Keys(fields)
    ensures FieldMeanings(Assign(fields, key, value)) == FieldMeanings(fields)[key := MeaningOf(value)]
    ensures NormalFields(fields) && Normal(value) ==> NormalFields(Assign(fields, key, value))
    decreases fields
  {
    match fields
    case End =>
    case Field(k, v, rest) =>
      if !(IsIndex(key) && (!IsIndex(k) || NumLess(key, k))) {
        AssignMeaning(rest, key, value);
        SetsCommute(FieldMeanings(rest), key, MeaningOf(value), k, MeaningOf(v));
      }
  }

  /** `Assign` puts a new key before `k`, or after it, as enumeration has them, if plain keys arrive in order. */
  lemma AssignSide(key: string, k: string)
    requires key != k && (!IsIndex(k) ==> IsIndex(key) || LexLess(k, key))
    ensures if IsIndex(key) && (!IsIndex(k) || NumLess(key, k)) then EnumLess(key, k) else EnumLess(k, key)
  {
    LexTrichotomy(key, k);
  }

  /** Assigning a new key, lexicographically above the plain keys already there, lands it in enumeration order. */
  lemma {:induction false} AssignOrdered(fields: Fields, key: string, value: Json)
    requires key != PROTO && key !in Keys(fields) && Ordered(fields)
    requires forall k | k in Keys(fields) && !IsIndex(k) :: LexLess(k, key)
    ensures Ordered(Assign(fields, key, value)) && Keys(Assign(fields, key, value)) == Keys(fields) + {key}
    decreases fields
  {
    match fields
    case End =>
    case Field(k, v, rest) =>
      AssignSide(key, k);
      if EnumLess(key, k) {
        EnumTrichotomy(key, k);
        forall x | x in Keys(fields) ensures EnumLess(key, x) {
          if x != k { EnumTransitive(key, k, x); }
        }
      } else {
        AssignOrdered(rest, key, value);
      }
  }

  /** Without the key `__proto__`. */
  function Visible(m: map<string, Meaning>): map<string, Meaning> {
    m - {PROTO}
  }

  lemma VisibleSplits(into: map<string, Meaning>, rest: map<string, Meaning>, key: string, x: Meaning)
    requires key !in rest && key != PROTO
    ensures into[key := x] + Visible(rest) == into + Visible(rest[key := x])
  {}

  /** Every key of `fields` is lexicographically above every key of `into`. */
  ghost predicate Follows(into: Fields, fields: Fields) {
    forall k, x | k in Keys(into) && x in Keys(fields) :: LexLess(k, x)
  }

  lemma FollowsIsNew(into: Fields, fields: Fields)
    requires fields.Field? && Follows(into, fields) && LexOrdered(fields)
    ensures fields.key !in Keys(into) && fields.key !in Keys(fields.rest)
    ensures Follows(into, fields.rest)
    ensures forall k, x | k in Keys(into) + {fields.key} && x in Keys(fields.rest) :: LexLess(k, x)
  {
    LexTrichotomy(fields.key, fields.key);
  }

  lemma {:induction false} AssignAllOrdered(into: Fields, fields: Fields)
    requires Ordered(into) && LexOrdered(fields) && Follows(into, fields)
    ensures Ordered(AssignAll(into, fields))
    decreases fields
  {
    if fields.Field? {
      FollowsIsNew(into, fields);
      if fields.key != PROTO { AssignOrdered(into, fields.key, fields.value); }
      AssignAllOrdered(Assign(into, fields.key, fields.value), fields.rest);
    }
  }

  lemma {:induction false} AssignAllMeaning(into: Fields, fields: Fields)
    requires Ordered(into) && LexOrdered(fields) && Follows(into, fields)
    ensures FieldMeanings(AssignAll(into, fields)) == FieldMeanings(into) + Visible(FieldMeanings(fields))
    decreases fields
  {
    if fields.Field? {
      var key, value, rest := fields.key, fields.value, fields.rest;
      FollowsIsNew(into, fields);
      if key == PROTO {
        AssignAllMeaning(into, rest);
        ProtoIsHidden(fields);
      } else {
        AssignMeaning(into, key, value);
        AssignOrdered(into, key, value);
        AssignAllMeaning(Assign(into, key, value), rest);
        FieldIsShown(FieldMeanings(into), fields);
      }
    }
  }

  lemma ProtoIsHidden(fields: Fields)
    requires fields.Field? && fields.key == PROTO
    ensures Visible(FieldMeanings(fields)) == Visible(FieldMeanings(fields.rest))
  {}

  lemma FieldIsShown(into: map<string, Meaning>, fields: Fields)
    requires fields.Field? && fields.key != PROTO && fields.key !in Keys(fields.rest)
    ensures into[fields.key := MeaningOf(fields.value)] + Visible(FieldMeanings(fields.rest)) == into + Visible(FieldMeanings(fields))
  {
    VisibleSplits(into, FieldMeanings(fields.rest), fields.key, MeaningOf(fields.value));
  }

  lemma {:induction false} AssignAllNormal(into: Fields, fields: Fields)
    requires NormalFields(into) && NormalFields(fields)
    requires Ordered(into) && LexOrdered(fields) && Follows(into, fields)
    ensures NormalFields(AssignAll(into, fields))
    decreases fields
  {
    if fields.Field? {
      FollowsIsNew(into, fields);
      if fields.key != PROTO {
        AssignMeaning(into, fields.key, fields.value);
        AssignOrdered(into, fields.key, fields.value);
      }
      AssignAllNormal(Assign(into, fields.key, fields.value), fields.rest);
    }
  }

  // ---- canonical trees are normal, and mean what they came from ----

  lemma RebuildIsNormal(values: Fields)
    requires DistinctKeys(values) && NormalFields(values)
    ensures var r := AssignAll(End, SortByKey(values));
            Ordered(r) && NormalFields(r) && FieldMeanings(r) == Visible(FieldMeanings(values))
  {
    SortByKeyKeeps(values);
    AssignAllOrdered(End, SortByKey(values));
    AssignAllMeaning(End, SortByKey(values));
    AssignAllNormal(End, SortByKey(values));
    assert map[] + Visible(FieldMeanings(values)) == Visible(FieldMeanings(values));
  }

  lemma {:induction false} CanonicalIsNormal(j: Json)
    requires Proper(j)
    ensures Normal(Canonicalize(j)) && MeaningOf(Canonicalize(j)) == MeaningOf(Strip(j))
    decreases j
  {
    match j
    case Leaf(_) =>
    case Arr(items) => CanonicalItemsAreNormal(items);
    case Obj(fields) =>
      CanonicalValuesAreNormal(fields);
      RebuildIsNormal(CanonicalValues(fields));
  }

  lemma {:induction false} CanonicalItemsAreNormal(items: Items)
    requires ProperItems(items)
    ensures NormalItems(CanonicalItems(items)) && ItemMeanings(CanonicalItems(items)) == ItemMeanings(StripItems(items))
    decreases items
  {
    match items
    case Nil =>
    case Cons(head, tail) =>
      CanonicalIsNormal(head);
      CanonicalItemsAreNormal(tail);
  }

  lemma {:induction false} CanonicalValuesAreNormal(fields: Fields)
    requires ProperFields(fields)
    ensures var r := CanonicalValues(fields);
            && NormalFields(r) && Keys(r) == Keys(fields) && DistinctKeys(r)
            && Visible(FieldMeanings(r)) == FieldMeanings(StripFields(fields))
    decreases fields
  {
    match fields
    case End =>
    case Field(key, value, rest) =>
      CanonicalIsNormal(value);
      CanonicalValuesAreNormal(rest);
  }

  /** Normal trees with one meaning are one tree. */
  lemma {:induction false} NormalIsUnique(a: Json, b: Json)
    requires Normal(a) && Normal(b) && MeaningOf(a) == MeaningOf(b)
    ensures a == b
    decreases a
  {
    match a
    case Leaf(_) =>
    case Arr(items) => NormalItemsAreUnique(items, b.items);
    case Obj(fields) => NormalFieldsAreUnique(fields, b.fields);
  }

  lemma {:induction false} NormalItemsAreUnique(a: Items, b: Items)
    requires NormalItems(a) && NormalItems(b) && ItemMeanings(a) == ItemMeanings(b)
    ensures a == b
    decreases a
  {
    if a.Cons? && b.Cons? {
      assert ItemMeanings(a)[0] == MeaningOf(a.head) && ItemMeanings(b)[0] == MeaningOf(b.head);
      assert ItemMeanings(a)[1..] == ItemMeanings(a.tail) && ItemMeanings(b)[1..] == ItemMeanings(b.tail);
      NormalIsUnique(a.head, b.head);
      NormalItemsAreUnique(a.tail, b.tail);
    }
  }

  lemma {:induction false} NormalFieldsAreUnique(a: Fields, b: Fields)
    requires Ordered(a) && Ordered(b) && NormalFields(a) && NormalFields(b)
    requires FieldMeanings(a) == FieldMeanings(b)
    ensures a == b
    decreases a
  {
    assert Keys(a) == Keys(b);
    if a.Field? && b.Field? {
      assert a.key in Keys(b) && b.key in Keys(a);
      EnumTrichotomy(a.key, b.key);
      EnumTrichotomy(a.key, a.key);
      assert FieldMeanings(a)[a.key] == MeaningOf(a.value) && FieldMeanings(b)[b.key] == MeaningOf(b.value);
      NormalIsUnique(a.value, b.value);
      assert FieldMeanings(a.rest) == FieldMeanings(a) - {a.key};
      assert FieldMeanings(b.rest) == FieldMeanings(b) - {b.key};
      NormalFieldsAreUnique(a.rest, b.rest);
    }
  }

  // ---- the main results ----

  /** Two trees canonicalize alike exactly if, leaving `__proto__` properties out, they differ only in the order of keys, at any depth. */
  lemma CanonicalDecidesEquality(a: Json, b: Json)
    requires Proper(a) && Proper(b)
    ensures Canonicalize(a) == Canonicalize(b) <==> MeaningOf(Strip(a)) == MeaningOf(Strip(b))
  {
    CanonicalIsNormal(a);
    CanonicalIsNormal(b);
    if MeaningOf(Strip(a)) == MeaningOf(Strip(b)) {
      NormalIsUnique(Canonicalize(a), Canonicalize(b));
    }
  }

  lemma {:induction false} StripIsIdentity(j: Json)
    requires NoProto(j)
    ensures Strip(j) == j
    decreases j
  {
    match j
    case Leaf(_) =>
    case Arr(items) => StripItemsIsIdentity(items);
    case Obj(fields) => StripFieldsIsIdentity(fields);
  }

  lemma {:induction false} StripItemsIsIdentity(items: Items)
    requires NoProtoItems(items)
    ensures StripItems(items) == items
    decreases items
  {
    match items
    case Nil =>
    case Cons(head, tail) =>
      StripIsIdentity(head);
      StripItemsIsIdentity(tail);
  }

  lemma {:induction false} StripFieldsIsIdentity(fields: Fields)
    requires NoProtoFields(fields)
    ensures StripFields(fields) == fields
    decreases fields
  {
    match fields
    case End =>
    case Field(key, value, rest) =>
      StripIsIdentity(value);
      StripFieldsIsIdentity(rest);
  }

  /** Canonicalization keeps a tree's meaning exactly if the tree has no `__proto__` property anywhere. */
  lemma KeepsMeaningIff(j: Json)
    requires Proper(j)
    ensures MeaningOf(Canonicalize(j)) == MeaningOf(j) <==> NoProto(j)
  {
    CanonicalIsNormal(j);
    if NoProto(j) {
      StripIsIdentity(j);
    } else {
      StripLoses(j);
    }
  }

  lemma {:induction false} StripLoses(j: Json)
    requires Proper(j) && !NoProto(j)
    ensures MeaningOf(Strip(j)) != MeaningOf(j)
    decreases j
  {
    match j
    case Leaf(_) =>
    case Arr(items) => StripItemsLoses(items);
    case Obj(fields) => StripFieldsLoses(fields);
  }

  lemma {:induction false} StripItemsLoses(items: Items)
    requires ProperItems(items) && !NoProtoItems(items)
    ensures ItemMeanings(StripItems(items)) != ItemMeanings(items)
    decreases items
  {
    match items
    case Nil =>
    case Cons(head, tail) =>
      var s, m := ItemMeanings(StripItems(items)), ItemMeanings(items);
      assert s[0] == MeaningOf(Strip(head)) && m[0] == MeaningOf(head);
      assert s[1..] == ItemMeanings(StripItems(tail)) && m[1..] == ItemMeanings(tail);
      if !NoProto(head) { StripLoses(head); } else { StripItemsLoses(tail); }
  }

  lemma {:induction false} StripFieldsLoses(fields: Fields)
    requires ProperFields(fields) && !NoProtoFields(fields)
    ensures FieldMeanings(StripFields(fields)) != FieldMeanings(fields)
    decreases fields
  {
    match fields
    case End =>
    case Field(key, value, rest) =>
      var s, m := FieldMeanings(StripFields(fields)), FieldMeanings(fields);
      if key == PROTO {
        assert PROTO in m && PROTO !in s;
      } else if !NoProto(value) {
        StripLoses(value);
        assert s[key] == MeaningOf(Strip(value)) && m[key] == MeaningOf(value);
      } else {
        StripFieldsLoses(rest);
        assert FieldMeanings(StripFields(rest)) == s - {key} && FieldMeanings(rest) == m - {key};
      }
  }

  lemma {:induction false} NormalIsProper(j: Json)
    requires Normal(j)
    ensures Proper(j) && NoProto(j)
    decreases j
  {
    match j
    case Leaf(_) =>
    case Arr(items) => NormalItemsAreProper(items);
    case Obj(fields) => NormalFieldsAreProper(fields);
  }

  lemma {:induction false} NormalItemsAreProper(items: Items)
    requires NormalItems(items)
    ensures ProperItems(items) && NoProtoItems(items)
    decreases items
  {
    match items
    case Nil =>
    case Cons(head, tail) =>
      NormalIsProper(head);
      NormalItemsAreProper(tail);
  }

  lemma {:induction false} NormalFieldsAreProper(fields: Fields)
    requires Ordered(fields) && NormalFields(fields)
    ensures ProperFields(fields) && NoProtoFields(fields)
    decreases fields
  {
    match fields
    case End =>
    case Field(key, value, rest) =>
      EnumTrichotomy(key, key);
      NormalIsProper(value);
      NormalFieldsAreProper(rest);
  }

  /** Without `__proto__` properties: canonicalizing twice is canonicalizing once, and equal results mean equality up to key order. */
  lemma CanonicalIsIdempotent(a: Json, b: Json)
    requires Proper(a) && Proper(b) && NoProto(a) && NoProto(b)
    ensures Canonicalize(Canonicalize(a)) == Canonicalize(a)
    ensures Canonicalize(a) == Canonicalize(b) <==> MeaningOf(a) == MeaningOf(b)
  {
    StripIsIdentity(a);
    StripIsIdentity(b);
    CanonicalDecidesEquality(a, b);
    var c := Canonicalize(a);
    CanonicalIsNormal(a);
    NormalIsProper(c);
    CanonicalIsNormal(c);
    StripIsIdentity(c);
    NormalIsUnique(Canonicalize(c), c);
  }
}
