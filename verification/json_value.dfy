/** The abstract JSON document: what `json.loads` produces and `json.dumps`
    consumes. Objects are Python dicts, which keep insertion order and hold
    each key once, so they are modelled as an ordered list of members. */
module JsonValue {
  import opened Outcomes

  datatype Json =
    | JNull
    | JBool(b: bool)
    | JInt(i: int)
    | JString(s: string)
    | JArray(items: seq<Json>)
    | JObject(fields: seq<Member>)

  datatype Member = Member(key: string, val: Json)

  /** The keys of an object, in insertion order. */
  function Keys(fields: seq<Member>): seq<string>
  {
    seq(|fields|, i requires 0 <= i < |fields| => fields[i].key)
  }

  /** No key occurs twice. */
  predicate DistinctKeys(fields: seq<Member>)
  {
    forall i, j :: 0 <= i < j < |fields| ==> fields[i].key != fields[j].key
  }

  /** Every object, at every depth, holds each key at most once: true of
      every value a Python program can build out of dicts and lists. */
  predicate WellFormed(j: Json)
  {
    match j
    case JArray(items) => forall i :: 0 <= i < |items| ==> WellFormed(items[i])
    case JObject(fields) =>
      && DistinctKeys(fields)
      && forall i :: 0 <= i < |fields| ==> WellFormed(fields[i].val)
    case _ => true
  }

  /** `d.get(k)`: the value stored under `k`, if any. */
  function Lookup(fields: seq<Member>, k: string): Option<Json>
  {
    if fields == [] then None
    else if fields[0].key == k then Some(fields[0].val)
    else Lookup(fields[1..], k)
  }

  /** `d[k] = v`: an existing key keeps its position and gets the new value;
      a new key is appended at the end. */
  function Update(fields: seq<Member>, k: string, v: Json): seq<Member>
  {
    if fields == [] then [Member(k, v)]
    else if fields[0].key == k then [Member(k, v)] + fields[1..]
    else [fields[0]] + Update(fields[1..], k, v)
  }

  /** A lookup succeeds exactly for the keys the object holds. */
  lemma {:induction false} LookupFindsKeys(fields: seq<Member>, k: string)
    ensures Lookup(fields, k).Some? <==> k in Keys(fields)
  {
    if fields != [] {
      LookupFindsKeys(fields[1..], k);
      assert Keys(fields) == [fields[0].key] + Keys(fields[1..]);
    }
  }

  /** The value a lookup finds is the value of a member of the object. */
  lemma {:induction false} LookupFindsMember(fields: seq<Member>, k: string)
    requires Lookup(fields, k).Some?
    ensures exists i :: 0 <= i < |fields| && fields[i] == Member(k, Lookup(fields, k).value)
  {
    if fields[0].key != k {
      LookupFindsMember(fields[1..], k);
      var i :| 0 <= i < |fields[1..]| && fields[1..][i] == Member(k, Lookup(fields, k).value);
      assert fields[i + 1] == fields[1..][i];
    }
  }

  /** Read after write: the updated key now holds the new value and every
      other key holds what it held before. */
  lemma {:induction false} LookupUpdate(fields: seq<Member>, k: string, v: Json, k': string)
    ensures Lookup(Update(fields, k, v), k') == if k' == k then Some(v) else Lookup(fields, k')
  {
    if fields != [] && fields[0].key != k {
      LookupUpdate(fields[1..], k, v, k');
      assert Update(fields, k, v)[1..] == Update(fields[1..], k, v);
    }
  }

  /** Assigning a key the value it already holds gives back the same object. */
  lemma {:induction false} UpdateSameValue(fields: seq<Member>, k: string, v: Json)
    requires Lookup(fields, k) == Some(v)
    ensures Update(fields, k, v) == fields
  {
    if fields[0].key != k {
      UpdateSameValue(fields[1..], k, v);
    }
  }

  /** Assignment to an existing key keeps the key order; a new key goes last. */
  lemma {:induction false} KeysUpdate(fields: seq<Member>, k: string, v: Json)
    ensures Keys(Update(fields, k, v)) == if k in Keys(fields) then Keys(fields) else Keys(fields) + [k]
  {
    if fields == [] {
    } else if fields[0].key == k {
      assert Keys(fields)[0] == k;
      assert Keys(Update(fields, k, v)) == Keys(fields);
    } else {
      KeysUpdate(fields[1..], k, v);
      assert Keys(fields) == [fields[0].key] + Keys(fields[1..]);
      assert Keys(Update(fields, k, v)) == [fields[0].key] + Keys(Update(fields[1..], k, v));
    }
  }

  /** Every member after an update is the new member or an old one. */
  lemma {:induction false} UpdateMembers(fields: seq<Member>, k: string, v: Json, i: nat)
    requires i < |Update(fields, k, v)|
    ensures Update(fields, k, v)[i] == Member(k, v) || Update(fields, k, v)[i] in fields
  {
    if fields != [] && fields[0].key != k && i > 0 {
      UpdateMembers(fields[1..], k, v, i - 1);
    }
  }

  /** Assignment to a key of a well-formed object with a well-formed value
      leaves a well-formed object: keys stay distinct. */
  lemma UpdateWellFormed(fields: seq<Member>, k: string, v: Json)
    requires WellFormed(JObject(fields))
    requires WellFormed(v)
    ensures WellFormed(JObject(Update(fields, k, v)))
  {
    var u := Update(fields, k, v);
    KeysUpdate(fields, k, v);
    forall i, j | 0 <= i < j < |u|
      ensures u[i].key != u[j].key
    {
      assert Keys(u)[i] == u[i].key && Keys(u)[j] == u[j].key;
    }
    forall i | 0 <= i < |u|
      ensures WellFormed(u[i].val)
    {
      UpdateMembers(fields, k, v, i);
    }
  }

  /** What a lookup finds in a well-formed object is well-formed. */
  lemma LookupWellFormed(fields: seq<Member>, k: string)
    requires WellFormed(JObject(fields))
    requires Lookup(fields, k).Some?
    ensures WellFormed(Lookup(fields, k).value)
  {
    LookupFindsMember(fields, k);
  }
}
