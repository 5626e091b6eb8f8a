/**
 * The key-partitioning collaborator: an object's keys split into those whose
 * value is a scalar and those whose value is an array or an object, each group
 * keeping the object's own key order. Its implementation is not part of this
 * model; it is stated here as two order-preserving filters.
 */
module KeysManager {
  import opened JsonValue

  /** Members whose value is neither an array nor an object, in order. */
  function ScalarMembers(ms: seq<Member>): (r: seq<Member>)
    ensures forall i :: 0 <= i < |r| ==> !IsStructured(r[i].value)
  {
    if ms == [] then []
    else if IsStructured(ms[0].value) then ScalarMembers(ms[1..])
    else [ms[0]] + ScalarMembers(ms[1..])
  }

  /** Members whose value is an array or an object, in order. */
  function StructuredMembers(ms: seq<Member>): (r: seq<Member>)
    ensures forall i :: 0 <= i < |r| ==> IsStructured(r[i].value)
  {
    if ms == [] then []
    else if IsStructured(ms[0].value) then [ms[0]] + StructuredMembers(ms[1..])
    else StructuredMembers(ms[1..])
  }

  /** keys_not_array_or_object() */
  function ScalarKeys(ms: seq<Member>): seq<string> {
    KeysOf(ScalarMembers(ms))
  }

  /** keys_is_array_or_object() */
  function StructuredKeys(ms: seq<Member>): seq<string> {
    KeysOf(StructuredMembers(ms))
  }

  /**
   * The two groups cover the object's members exactly once between them.
   */
  lemma {:induction false} Partition(ms: seq<Member>)
    ensures multiset(ScalarMembers(ms)) + multiset(StructuredMembers(ms)) == multiset(ms)
  {
    if ms != [] {
      Partition(ms[1..]);
      assert ms == [ms[0]] + ms[1..];
    }
  }

  /** Each group lists, position by position, keys of members of the object. */
  lemma {:induction false} KeysOfFiltered(ms: seq<Member>)
    ensures |ScalarKeys(ms)| == |ScalarMembers(ms)|
    ensures |StructuredKeys(ms)| == |StructuredMembers(ms)|
    ensures forall i :: 0 <= i < |ScalarMembers(ms)| ==>
              ScalarKeys(ms)[i] == ScalarMembers(ms)[i].key && ScalarMembers(ms)[i] in ms
    ensures forall i :: 0 <= i < |StructuredMembers(ms)| ==>
              StructuredKeys(ms)[i] == StructuredMembers(ms)[i].key && StructuredMembers(ms)[i] in ms
  {
    KeysOfIndex(ScalarMembers(ms));
    KeysOfIndex(StructuredMembers(ms));
    FilteredFromObject(ms);
  }

  /** Both groups hold members of the object only. */
  lemma {:induction false} FilteredFromObject(ms: seq<Member>)
    ensures forall i :: 0 <= i < |ScalarMembers(ms)| ==> ScalarMembers(ms)[i] in ms
    ensures forall i :: 0 <= i < |StructuredMembers(ms)| ==> StructuredMembers(ms)[i] in ms
  {
    if ms != [] {
      FilteredFromObject(ms[1..]);
      assert ms == [ms[0]] + ms[1..];
      var scalars, structured := ScalarMembers(ms[1..]), StructuredMembers(ms[1..]);
      forall i | 0 <= i < |ScalarMembers(ms)| ensures ScalarMembers(ms)[i] in ms {
        if !IsStructured(ms[0].value) && i > 0 {
          assert ScalarMembers(ms)[i] == scalars[i - 1];
        } else if IsStructured(ms[0].value) {
          assert ScalarMembers(ms)[i] == scalars[i];
        }
      }
      forall i | 0 <= i < |StructuredMembers(ms)| ensures StructuredMembers(ms)[i] in ms {
        if IsStructured(ms[0].value) && i > 0 {
          assert StructuredMembers(ms)[i] == structured[i - 1];
        } else if !IsStructured(ms[0].value) {
          assert StructuredMembers(ms)[i] == structured[i];
        }
      }
    }
  }

  lemma {:induction false} KeysOfIndex(ms: seq<Member>)
    ensures |KeysOf(ms)| == |ms|
    ensures forall i :: 0 <= i < |ms| ==> KeysOf(ms)[i] == ms[i].key
  {
    if ms != [] {
      KeysOfIndex(ms[1..]);
    }
  }

  /**
   * Looking up a key of either group finds the very member the group holds
   * at that position (the keys of a QJsonObject are unique).
   */
  lemma LookupScalar(ms: seq<Member>, i: nat)
    requires UniqueKeys(ms) && i < |ScalarMembers(ms)|
    ensures ScalarKeys(ms)[i] in KeysOf(ms)
    ensures ms[IndexOf(ms, ScalarKeys(ms)[i])] == ScalarMembers(ms)[i]
  {
    KeysOfFiltered(ms);
    var j :| 0 <= j < |ms| && ms[j] == ScalarMembers(ms)[i];
    IndexOfMember(ms, j);
  }

  lemma LookupStructured(ms: seq<Member>, i: nat)
    requires UniqueKeys(ms) && i < |StructuredMembers(ms)|
    ensures StructuredKeys(ms)[i] in KeysOf(ms)
    ensures ms[IndexOf(ms, StructuredKeys(ms)[i])] == StructuredMembers(ms)[i]
  {
    KeysOfFiltered(ms);
    var j :| 0 <= j < |ms| && ms[j] == StructuredMembers(ms)[i];
    IndexOfMember(ms, j);
  }

  /**
   * The keys are found in the object in the order they are listed: a key
   * listed before another is found at an earlier position.
   */
  ghost predicate InObjectOrder(ms: seq<Member>, keys: seq<string>) {
    forall i, j :: 0 <= i < j < |keys| ==> FoundBefore(ms, keys[i], keys[j])
  }

  /** Both keys are in the object, `a` at an earlier position than `b`. */
  ghost predicate FoundBefore(ms: seq<Member>, a: string, b: string) {
    a in KeysOf(ms) && b in KeysOf(ms) && IndexOf(ms, a) < IndexOf(ms, b)
  }

  /** Both groups keep the object's key order. */
  lemma KeysInObjectOrder(ms: seq<Member>)
    requires UniqueKeys(ms)
    ensures InObjectOrder(ms, ScalarKeys(ms))
    ensures InObjectOrder(ms, StructuredKeys(ms))
  {
    ScalarKeysInOrder(ms);
    StructuredKeysInOrder(ms);
  }

  lemma ScalarKeysInOrder(ms: seq<Member>)
    requires UniqueKeys(ms)
    ensures InObjectOrder(ms, ScalarKeys(ms))
  {
    var keys := ScalarKeys(ms);
    forall i, j | 0 <= i < j < |keys|
      ensures FoundBefore(ms, keys[i], keys[j])
    {
      ScalarOrder(ms, i, j);
    }
  }

  lemma StructuredKeysInOrder(ms: seq<Member>)
    requires UniqueKeys(ms)
    ensures InObjectOrder(ms, StructuredKeys(ms))
  {
    var keys := StructuredKeys(ms);
    forall i, j | 0 <= i < j < |keys|
      ensures FoundBefore(ms, keys[i], keys[j])
    {
      StructuredOrder(ms, i, j);
    }
  }

  /** The groups of a non-empty object: its first member's key, if it belongs, then the rest's. */
  lemma KeysCons(ms: seq<Member>)
    requires ms != []
    ensures ScalarKeys(ms) == (if IsStructured(ms[0].value) then [] else [ms[0].key]) + ScalarKeys(ms[1..])
    ensures StructuredKeys(ms) == (if IsStructured(ms[0].value) then [ms[0].key] else []) + StructuredKeys(ms[1..])
  {
    var scalars, structured := ScalarMembers(ms[1..]), StructuredMembers(ms[1..]);
    assert ([ms[0]] + scalars)[1..] == scalars;
    assert ([ms[0]] + structured)[1..] == structured;
  }

  /** Two keys of the rest of the object keep their relative order in the whole object. */
  lemma OrderInTail(ms: seq<Member>, a: string, b: string)
    requires UniqueKeys(ms) && ms != [] && a in KeysOf(ms[1..]) && b in KeysOf(ms[1..])
    requires IndexOf(ms[1..], a) < IndexOf(ms[1..], b)
    ensures a in KeysOf(ms) && b in KeysOf(ms) && IndexOf(ms, a) < IndexOf(ms, b)
  {
    IndexOfTail(ms, a);
    IndexOfTail(ms, b);
  }

  /** The first member's key comes before every key of the rest. */
  lemma OrderAfterHead(ms: seq<Member>, b: string)
    requires UniqueKeys(ms) && ms != [] && b in KeysOf(ms[1..])
    ensures ms[0].key in KeysOf(ms) && b in KeysOf(ms) && IndexOf(ms, ms[0].key) < IndexOf(ms, b)
  {
    IndexOfTail(ms, b);
  }

  lemma {:induction false} ScalarOrder(ms: seq<Member>, i: nat, j: nat)
    requires UniqueKeys(ms) && i < j < |ScalarKeys(ms)|
    ensures ScalarKeys(ms)[i] in KeysOf(ms) && ScalarKeys(ms)[j] in KeysOf(ms)
    ensures IndexOf(ms, ScalarKeys(ms)[i]) < IndexOf(ms, ScalarKeys(ms)[j])
  {
    KeysCons(ms);
    UniqueKeysTail(ms);
    var keys, tail := ScalarKeys(ms), ScalarKeys(ms[1..]);
    if IsStructured(ms[0].value) {
      assert keys == tail;
      ScalarOrder(ms[1..], i, j);
      OrderInTail(ms, tail[i], tail[j]);
    } else {
      assert keys == [ms[0].key] + tail;
      assert keys[j] == tail[j - 1];
      if i == 0 {
        LookupScalar(ms[1..], j - 1);
        OrderAfterHead(ms, tail[j - 1]);
      } else {
        assert keys[i] == tail[i - 1];
        ScalarOrder(ms[1..], i - 1, j - 1);
        OrderInTail(ms, tail[i - 1], tail[j - 1]);
      }
    }
  }

  lemma {:induction false} StructuredOrder(ms: seq<Member>, i: nat, j: nat)
    requires UniqueKeys(ms) && i < j < |StructuredKeys(ms)|
    ensures StructuredKeys(ms)[i] in KeysOf(ms) && StructuredKeys(ms)[j] in KeysOf(ms)
    ensures IndexOf(ms, StructuredKeys(ms)[i]) < IndexOf(ms, StructuredKeys(ms)[j])
  {
    KeysCons(ms);
    UniqueKeysTail(ms);
    var keys, tail := StructuredKeys(ms), StructuredKeys(ms[1..]);
    if !IsStructured(ms[0].value) {
      assert keys == tail;
      StructuredOrder(ms[1..], i, j);
      OrderInTail(ms, tail[i], tail[j]);
    } else {
      assert keys == [ms[0].key] + tail;
      assert keys[j] == tail[j - 1];
      if i == 0 {
        LookupStructured(ms[1..], j - 1);
        OrderAfterHead(ms, tail[j - 1]);
      } else {
        assert keys[i] == tail[i - 1];
        StructuredOrder(ms[1..], i - 1, j - 1);
        OrderInTail(ms, tail[i - 1], tail[j - 1]);
      }
    }
  }
}
