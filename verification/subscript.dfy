/** Python's subscript operators `value[key]` and `value[key] = v`, applied
    to a JSON document: what `Accessor.__getitem__` and `Accessor.__setitem__`
    delegate to. */
module Subscript {
  import opened Outcomes
  import opened JsonValue

  /** A subscript: a dictionary key or a list position. */
  datatype Key = Name(name: string) | Index(index: int)

  /** Python's reading of a list position: a negative index counts back
      from the end; anything outside `-n .. n-1` is out of range. */
  function NormalizeIndex(i: int, n: nat): (r: Option<nat>)
    ensures r.Some? <==> -(n as int) <= i < n
    ensures r.Some? ==> r.value < n && r.value == i % n
  {
    if 0 <= i < n then Some(i)
    else if -(n as int) <= i < 0 then Some(i + n)
    else None
  }

  /** `doc[key]`. A dict is looked up by name and a missing name raises
      KeyError (nothing is inserted); a list or a string is indexed by
      position; anything else is not subscriptable. */
  function GetItem(doc: Json, key: Key): (r: Result<Json, Raised>)
    ensures doc.JObject? && key.Name? ==> (r.Success? <==> key.name in Keys(doc.fields))
    ensures doc.JObject? && key.Name? && r.Success? ==> Member(key.name, r.value) in doc.fields
    ensures doc.JObject? && key.Index? ==> r == Failure(KeyError)
    ensures doc.JObject? && r.Failure? ==> r.error == KeyError
    ensures (doc.JArray? || doc.JString?) && key.Index? ==>
              (r.Success? <==> -(Length(doc) as int) <= key.index < Length(doc))
    ensures (doc.JArray? || doc.JString?) && key.Index? && r.Failure? ==> r.error == IndexError
    ensures doc.JArray? && key.Index? && r.Success? ==> r.value == doc.items[key.index % |doc.items|]
    ensures doc.JString? && key.Index? && r.Success? ==> r.value == JString([doc.s[key.index % |doc.s|]])
    ensures (doc.JArray? || doc.JString?) && key.Name? ==> r == Failure(TypeError)
    ensures !(doc.JObject? || doc.JArray? || doc.JString?) ==> r == Failure(TypeError)
  {
    match doc
    case JObject(fields) =>
      (match key
       case Name(k) =>
         LookupFindsKeys(fields, k);
         (match Lookup(fields, k)
          case Some(v) =>
            LookupFindsMember(fields, k);
            Success(v)
          case None => Failure(KeyError))
       case Index(_) => Failure(KeyError))
    case JArray(items) =>
      (match key
       case Index(i) =>
         (match NormalizeIndex(i, |items|)
          case Some(j) => Success(items[j])
          case None => Failure(IndexError))
       case Name(_) => Failure(TypeError))
    case JString(s) =>
      (match key
       case Index(i) =>
         (match NormalizeIndex(i, |s|)
          case Some(j) => Success(JString([s[j]]))
          case None => Failure(IndexError))
       case Name(_) => Failure(TypeError))
    case _ => Failure(TypeError)
  }

  /** The number of positions of a list or a string. */
  function Length(doc: Json): nat
  {
    match doc
    case JArray(items) => |items|
    case JString(s) => |s|
    case _ => 0
  }

  /** `doc[key] = v`, returning the updated document. A dict takes any name;
      a list takes a position already in range; strings and scalars refuse
      item assignment. */
  function SetItem(doc: Json, key: Key, v: Json): (r: Result<Json, Raised>)
    ensures r.Success? <==>
              || (doc.JObject? && key.Name?)
              || (doc.JArray? && key.Index? && -|doc.items| <= key.index < |doc.items|)
    ensures r.Failure? ==> r.error == (if doc.JArray? && key.Index? then IndexError else TypeError)
    ensures r.Success? ==> GetItem(r.value, key) == Success(v)
  {
    match doc
    case JObject(fields) =>
      (match key
       case Name(k) =>
         LookupUpdate(fields, k, v, k);
         LookupFindsKeys(Update(fields, k, v), k);
         Success(JObject(Update(fields, k, v)))
       case Index(_) => Failure(TypeError))
    case JArray(items) =>
      (match key
       case Index(i) =>
         (match NormalizeIndex(i, |items|)
          case Some(j) => Success(JArray(items[j := v]))
          case None => Failure(IndexError))
       case Name(_) => Failure(TypeError))
    case _ => Failure(TypeError)
  }

  /** Assigning a dict name leaves every other subscript reading what it
      read before. */
  lemma {:induction false} SetFieldFrame(fields: seq<Member>, k: string, v: Json, other: Key)
    requires other != Name(k)
    ensures GetItem(JObject(Update(fields, k, v)), other) == GetItem(JObject(fields), other)
  {
    if other.Name? {
      LookupUpdate(fields, k, v, other.name);
      LookupFindsKeys(fields, other.name);
      LookupFindsKeys(Update(fields, k, v), other.name);
    }
  }

  /** Assigning a list position leaves every subscript that Python does not
      normalize to that position reading what it read before. */
  lemma SetElementFrame(items: seq<Json>, i: int, v: Json, other: Key)
    requires NormalizeIndex(i, |items|).Some?
    requires !SameSlot(JArray(items), Index(i), other)
    ensures GetItem(JArray(items[NormalizeIndex(i, |items|).value := v]), other) == GetItem(JArray(items), other)
  {
  }

  /** An assignment leaves every subscript that does not denote the assigned
      slot reading exactly what it read before. */
  lemma SetItemFrame(doc: Json, key: Key, v: Json, other: Key)
    requires SetItem(doc, key, v).Success?
    requires !SameSlot(doc, key, other)
    ensures GetItem(SetItem(doc, key, v).value, other) == GetItem(doc, other)
  {
    if doc.JObject? {
      SetFieldFrame(doc.fields, key.name, v, other);
    } else {
      SetElementFrame(doc.items, key.index, v, other);
    }
  }

  /** Two subscripts denote the same slot of `doc`: the same dict name, or
      two positions that Python normalizes to the same list element. */
  predicate SameSlot(doc: Json, a: Key, b: Key)
  {
    match (a, b)
    case (Name(x), Name(y)) => x == y
    case (Index(x), Index(y)) =>
      NormalizeIndex(x, Length(doc)).Some? && NormalizeIndex(x, Length(doc)) == NormalizeIndex(y, Length(doc))
    case _ => false
  }

  /** Assignment keeps well-formedness: it never creates a duplicate key. */
  lemma SetItemWellFormed(doc: Json, key: Key, v: Json)
    requires WellFormed(doc) && WellFormed(v)
    requires SetItem(doc, key, v).Success?
    ensures WellFormed(SetItem(doc, key, v).value)
  {
    if doc.JObject? {
      UpdateWellFormed(doc.fields, key.name, v);
    }
  }

  /** A read of a well-formed document yields a well-formed value. */
  lemma GetItemWellFormed(doc: Json, key: Key)
    requires WellFormed(doc)
    requires GetItem(doc, key).Success?
    ensures WellFormed(GetItem(doc, key).value)
  {
    if doc.JObject? {
      LookupWellFormed(doc.fields, key.name);
    }
  }
}
