/** Decoded JSON values, as the validator and the store see them.

    An object is an ordered list of (key, value) members. Documents produced by
    a JSON decoder have unique keys; the lemmas that depend on it say so with
    `UniqueKeys`. Numbers carry an integer only: nothing in the modelled code
    inspects a number except for JavaScript truthiness. */
module JsonModel {

  datatype Option<+T> = None | Some(value: T)

  datatype Json =
    | JNull
    | JBool(b: bool)
    | JNum(n: int)
    | JStr(s: string)
    | JArr(items: seq<Json>)
    | JObj(fields: Fields)

  type Fields = seq<(string, Json)>

  /** The keys of an object, in declaration order (`Object.keys`). */
  function Keys(fields: Fields): (ks: seq<string>)
    ensures |ks| == |fields|
    ensures forall i :: 0 <= i < |fields| ==> ks[i] == fields[i].0
  {
    if |fields| == 0 then [] else [fields[0].0] + Keys(fields[1..])
  }

  predicate UniqueKeys(fields: Fields) {
    forall i, j :: 0 <= i < j < |fields| ==> fields[i].0 != fields[j].0
  }

  /** Property lookup `obj[key]`: the value of the first member named `key`. */
  function Get(fields: Fields, key: string): (r: Option<Json>)
    ensures r.Some? ==> (key, r.value) in fields
  {
    if |fields| == 0 then None
    else if fields[0].0 == key then Some(fields[0].1)
    else Get(fields[1..], key)
  }

  /** A read finds a value exactly when the key is declared. */
  lemma {:induction false} GetDefined(fields: Fields, key: string)
    ensures Get(fields, key).Some? <==> key in Keys(fields)
  {
    if |fields| > 0 && fields[0].0 != key {
      GetDefined(fields[1..], key);
      assert Keys(fields) == [fields[0].0] + Keys(fields[1..]);
    }
  }

  /** In a list with unique keys, the member at index i is what `Get` finds. */
  lemma {:induction false} GetAtIndex(fields: Fields, i: nat)
    requires UniqueKeys(fields)
    requires i < |fields|
    ensures Get(fields, fields[i].0) == Some(fields[i].1)
  {
    if i > 0 {
      assert UniqueKeys(fields[1..]) by {
        forall a, b | 0 <= a < b < |fields[1..]| ensures fields[1..][a].0 != fields[1..][b].0 {
          assert fields[1..][a] == fields[a + 1] && fields[1..][b] == fields[b + 1];
        }
      }
      assert fields[0].0 != fields[i].0;
      GetAtIndex(fields[1..], i - 1);
      assert fields[1..][i - 1] == fields[i];
    }
  }

  /** The first member named `fields[i].0` is member i: the read finds its value. */
  lemma {:induction false} GetFirst(fields: Fields, i: nat)
    requires i < |fields|
    requires forall j :: 0 <= j < i ==> fields[j].0 != fields[i].0
    ensures Get(fields, fields[i].0) == Some(fields[i].1)
  {
    if i > 0 {
      GetFirst(fields[1..], i - 1);
    }
  }

  /** A key no member carries reads as absent. */
  lemma {:induction false} GetMissing(fields: Fields, key: string)
    requires forall j :: 0 <= j < |fields| ==> fields[j].0 != key
    ensures Get(fields, key) == None
  {
    if |fields| > 0 {
      GetMissing(fields[1..], key);
    }
  }

  /** Property assignment `obj[key] = value`: overwrites the first member
      named `key` in place, or appends a new member at the end. */
  function Put(fields: Fields, key: string, value: Json): (r: Fields)
    ensures Keys(r) == if key in Keys(fields) then Keys(fields) else Keys(fields) + [key]
  {
    if |fields| == 0 then [(key, value)]
    else if fields[0].0 == key then [(key, value)] + fields[1..]
    else
      var rest := Put(fields[1..], key, value);
      assert Keys([fields[0]] + rest) == [fields[0].0] + Keys(rest);
      [fields[0]] + rest
  }

  /** After the assignment, reading `key` gives the new value and every other
      property reads as before. */
  lemma {:induction false} PutGet(fields: Fields, key: string, value: Json)
    ensures Get(Put(fields, key, value), key) == Some(value)
    ensures forall k :: k != key ==> Get(Put(fields, key, value), k) == Get(fields, k)
  {
    var r := Put(fields, key, value);
    if |fields| == 0 {
    } else if fields[0].0 == key {
      assert r[1..] == fields[1..];
    } else {
      PutGet(fields[1..], key, value);
      assert r[1..] == Put(fields[1..], key, value);
    }
  }

  /** JavaScript truthiness of a property read; an absent property is `undefined`. */
  predicate Truthy(v: Option<Json>) {
    match v
    case None => false
    case Some(JNull) => false
    case Some(JBool(b)) => b
    case Some(JNum(n)) => n != 0
    case Some(JStr(s)) => s != ""
    case Some(JArr(_)) => true
    case Some(JObj(_)) => true
  }
}
