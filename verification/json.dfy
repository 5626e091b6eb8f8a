/**
 * The already-parsed JSON document the graph builder consumes: a tagged union
 * over objects, arrays and the four scalar kinds. An object is the ordered
 * sequence of its members; its keys are unique, as in a QJsonObject.
 */
module JsonValue {

  datatype Json =
    | Null
    | Bool(b: bool)
    | Number(text: string)   // the number's decimal text, already formatted
    | Str(s: string)
    | Array(elems: seq<Json>)
    | Object(members: seq<Member>)

  datatype Member = Member(key: string, value: Json)

  /** Arrays and objects; everything else is a scalar. */
  predicate IsStructured(v: Json) {
    v.Array? || v.Object?
  }

  function KeysOf(ms: seq<Member>): (ks: seq<string>)
    ensures |ks| == |ms|
  {
    if ms == [] then [] else [ms[0].key] + KeysOf(ms[1..])
  }

  /** The members at positions `i` and `j` carry different keys. */
  predicate KeysDiffer(ms: seq<Member>, i: nat, j: nat)
    requires i < |ms| && j < |ms|
  {
    ms[i].key != ms[j].key
  }

  predicate UniqueKeys(ms: seq<Member>) {
    forall i: nat, j: nat :: i < j < |ms| ==> KeysDiffer(ms, i, j)
  }

  /** Every object in the document, at any depth, has unique keys. */
  predicate WellFormed(v: Json)
    decreases v
  {
    match v
    case Object(ms) => WellFormedMembers(ms)
    case Array(es) => forall i :: 0 <= i < |es| ==> WellFormed(es[i])
    case _ => true
  }

  predicate WellFormedMembers(ms: seq<Member>)
    decreases ms
  {
    UniqueKeys(ms) && forall i :: 0 <= i < |ms| ==> WellFormed(ms[i].value)
  }

  /**
   * Position of `key` among the members: the lookup behind QJsonObject::value.
   * The found member carries the key, and no earlier member does.
   */
  function IndexOf(ms: seq<Member>, key: string): (i: nat)
    requires key in KeysOf(ms)
    ensures i < |ms| && ms[i].key == key
    ensures forall j :: 0 <= j < i ==> ms[j].key != key
  {
    if ms[0].key == key then 0 else 1 + IndexOf(ms[1..], key)
  }

  /** With unique keys, looking up a member's own key finds that member. */
  lemma {:induction false} IndexOfMember(ms: seq<Member>, j: nat)
    requires UniqueKeys(ms) && j < |ms|
    ensures ms[j].key in KeysOf(ms)
    ensures IndexOf(ms, ms[j].key) == j
  {
    if j > 0 {
      UniqueKeysTail(ms);
      assert ms[1..][j - 1] == ms[j];
      IndexOfMember(ms[1..], j - 1);
      assert KeysDiffer(ms, 0, j);
    }
  }

  /** Dropping the first member keeps the keys unique. */
  lemma UniqueKeysTail(ms: seq<Member>)
    requires UniqueKeys(ms) && ms != []
    ensures UniqueKeys(ms[1..])
  {
    forall a: nat, b: nat | a < b < |ms[1..]| ensures KeysDiffer(ms[1..], a, b) {
      assert KeysDiffer(ms, a + 1, b + 1);
      assert ms[1..][a] == ms[a + 1] && ms[1..][b] == ms[b + 1];
    }
  }

  /**
   * A key of a later member is not the first member's key, and looking it up
   * in the whole object lands one position further than in the rest.
   */
  lemma IndexOfTail(ms: seq<Member>, key: string)
    requires UniqueKeys(ms) && ms != [] && key in KeysOf(ms[1..])
    ensures key in KeysOf(ms) && key != ms[0].key
    ensures IndexOf(ms, key) == 1 + IndexOf(ms[1..], key)
  {
    var t := IndexOf(ms[1..], key);
    assert ms[1..][t] == ms[t + 1];
    assert KeysDiffer(ms, 0, t + 1);
    assert KeysOf(ms) == [ms[0].key] + KeysOf(ms[1..]);
  }
}
