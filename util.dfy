/**
 * src/lib/util.ts: `sort_obj`, which rebuilds a plain object with its keys in
 * sorted order, and `parse_error`, which renders a thrown value as a string.
 *
 * `String(value)` coercion is a parameter `show`. Strings are sequences of
 * code points, and keys compare lexicographically by code point.
 */
module Util {
  import opened Values

  /** `parse_error`: an error's message, a string itself, or `String(err)`. */
  function ParseError(err: Value, show: Value -> string): (msg: string)
    ensures err.Err? ==> msg == err.message
    ensures err.Str? ==> msg == err.s
    ensures !err.Err? && !err.Str? ==> msg == show(err)
  {
    if err.Err? then err.message
    else if err.Str? then err.s
    else show(err)
  }

  /** JavaScript's default string order: lexicographic, a prefix first. */
  predicate StrLe(a: string, b: string)
  {
    a == [] || (b != [] && (a[0] < b[0] || (a[0] == b[0] && StrLe(a[1..], b[1..]))))
  }

  /** Any two strings are comparable. */
  lemma {:induction false} StrLeTotal(a: string, b: string)
    ensures StrLe(a, b) || StrLe(b, a)
  {
    if a != [] && b != [] && a[0] == b[0] {
      StrLeTotal(a[1..], b[1..]);
    }
  }

  /** Two strings each at most the other are equal. */
  lemma {:induction false} StrLeAntisymmetric(a: string, b: string)
    requires StrLe(a, b) && StrLe(b, a)
    ensures a == b
  {
    if a != [] && b != [] {
      StrLeAntisymmetric(a[1..], b[1..]);
      assert a == [a[0]] + a[1..] && b == [b[0]] + b[1..];
    }
  }

  /** Every adjacent pair is in order. */
  predicate Sorted(keys: seq<string>)
  {
    forall i :: 0 < i < |keys| ==> StrLe(keys[i - 1], keys[i])
  }

  /** Insert `k` into the sorted `keys` before the first key it does not follow. */
  function Insert(k: string, keys: seq<string>): (r: seq<string>)
    ensures multiset(r) == multiset(keys) + multiset{k}
    ensures |r| == |keys| + 1
  {
    if keys == [] || StrLe(k, keys[0]) then [k] + keys
    else
      assert keys == [keys[0]] + keys[1..];
      [keys[0]] + Insert(k, keys[1..])
  }

  /** `Array.prototype.sort` with the default comparison, as an insertion sort. */
  function Sort(keys: seq<string>): (r: seq<string>)
    ensures multiset(r) == multiset(keys)
    ensures |r| == |keys|
  {
    if keys == [] then []
    else
      assert keys == [keys[0]] + keys[1..];
      Insert(keys[0], Sort(keys[1..]))
  }

  lemma {:induction false} InsertSorted(k: string, keys: seq<string>)
    requires Sorted(keys)
    ensures Sorted(Insert(k, keys))
    ensures keys != [] ==> Insert(k, keys)[0] == k || Insert(k, keys)[0] == keys[0]
  {
    if keys != [] && !StrLe(k, keys[0]) {
      StrLeTotal(k, keys[0]);
      InsertSorted(k, keys[1..]);
    }
  }

  /** The sort orders its input. */
  lemma {:induction false} SortSorted(keys: seq<string>)
    ensures Sorted(Sort(keys))
  {
    if keys != [] {
      SortSorted(keys[1..]);
      InsertSorted(keys[0], Sort(keys[1..]));
    }
  }

  /** Sorting a sorted sequence leaves it as it is. */
  lemma {:induction false} SortOfSorted(keys: seq<string>)
    requires Sorted(keys)
    ensures Sort(keys) == keys
  {
    if keys != [] {
      SortOfSorted(keys[1..]);
      assert keys == [keys[0]] + keys[1..];
    }
  }

  /** The keys of a property list, in order. */
  function Keys(props: seq<(string, Value)>): (ks: seq<string>)
    ensures |ks| == |props| && forall i :: 0 <= i < |props| ==> ks[i] == props[i].0
  {
    if props == [] then [] else [props[0].0] + Keys(props[1..])
  }

  /** `obj[key]`: the value of the first property named `key`, `undefined` when none is. */
  function Lookup(props: seq<(string, Value)>, key: string): Value
  {
    if props == [] then Undefined
    else if props[0].0 == key then props[0].1
    else Lookup(props[1..], key)
  }

  /** The keys of `keys` that satisfy `keep`, in order. */
  function Retain(keys: seq<string>, keep: string -> bool): (r: seq<string>)
    ensures forall k :: k in r <==> k in keys && keep(k)
    ensures multiset(r) <= multiset(keys)
  {
    if keys == [] then []
    else
      assert keys == [keys[0]] + keys[1..];
      if keep(keys[0]) then [keys[0]] + Retain(keys[1..], keep)
      else Retain(keys[1..], keep)
  }

  /**
   * Whether the filter `([ _, value ]) => value !== undefined` keeps a key:
   * destructuring the key string binds `value` to its second character,
   * which is `undefined` only for keys shorter than two characters.
   */
  predicate LongKey(k: string)
  {
    |k| >= 2
  }

  /** The filter of `sort_obj`: it keeps exactly the keys of two or more characters. */
  function KeepLong(keys: seq<string>): (r: seq<string>)
    ensures forall k :: k in r <==> k in keys && |k| >= 2
    ensures multiset(r) <= multiset(keys)
  {
    Retain(keys, LongKey)
  }

  /**
   * Whether `sorted[key] = value` on a fresh `{}` creates an own property.
   * For `__proto__` it calls the `Object.prototype.__proto__` setter instead,
   * which changes the prototype and adds no key.
   */
  predicate Assignable(key: string)
  {
    key != "__proto__"
  }

  /**
   * The `reduce`: a fresh object that copies each key's value from the
   * input, in order; a `__proto__` key becomes no property.
   */
  function Gather(keys: seq<string>, from: seq<(string, Value)>): (r: seq<(string, Value)>)
    ensures Keys(r) == Retain(keys, Assignable)
    ensures forall i :: 0 <= i < |r| ==> r[i].1 == Lookup(from, r[i].0)
  {
    if keys == [] then []
    else if !Assignable(keys[0]) then Gather(keys[1..], from)
    else
      var rest := Gather(keys[1..], from);
      assert Keys([(keys[0], Lookup(from, keys[0]))] + rest) == [keys[0]] + Keys(rest);
      [(keys[0], Lookup(from, keys[0]))] + rest
  }

  /** The decimal numeral of a natural number, as `Object.keys` renders array indices. */
  function Decimal(n: nat): (s: string)
    ensures |s| >= 1
    ensures n >= 10 ==> |s| >= 2
  {
    var digit := ['0', '1', '2', '3', '4', '5', '6', '7', '8', '9'][n % 10];
    if n < 10 then [digit] else Decimal(n / 10) + [digit]
  }

  /**
   * The own enumerable properties of an object value: a plain object's
   * properties, a typed array's indices, and none for an error instance.
   */
  function OwnEntries(v: Value): seq<(string, Value)>
  {
    match v
    case Object(props) => props
    case Bytes(bytes) => seq(|bytes|, i requires 0 <= i < |bytes| => (Decimal(i), Num(Integer(bytes[i]))))
    case _ => []
  }

  /** The property list `sort_obj` builds for an object. */
  function SortedProps(props: seq<(string, Value)>): seq<(string, Value)>
  {
    Gather(KeepLong(Sort(Keys(props))), props)
  }

  /**
   * `sort_obj`: a `Map`, an array or a non-object comes back as it is; `null`,
   * whose `typeof` is `'object'`, makes `Object.keys` throw a `TypeError`;
   * any other object is rebuilt from its sorted, filtered keys.
   */
  function SortObj(v: Value): (r: Outcome<Value>)
    ensures v.MapObject? || v.Array? || !TypeofObject(v) ==> r == Returns(v)
    ensures v.Null? ==> r.Throws? && r.thrown.Err? && r.thrown.kind == TypeError
    ensures v.Object? ==> r.Returns? && r.value.Object?
  {
    if v.MapObject? || v.Array? || !TypeofObject(v) then Returns(v)
    else if v.Null? then Throw(TypeError, "Cannot convert undefined or null to object")
    else Returns(Object(SortedProps(OwnEntries(v))))
  }

  /**
   * For a plain object: the result's keys are in sorted order; they are
   * exactly the input's keys of two or more characters other than
   * `__proto__`; and each carries the value it had in the input.
   */
  lemma SortObjOfObject(props: seq<(string, Value)>)
    ensures SortObj(Object(props)).Returns?
    ensures var out := SortObj(Object(props)).value.props;
      && Sorted(Keys(out))
      && (forall k :: k in Keys(out) <==> k in Keys(props) && |k| >= 2 && k != "__proto__")
      && (forall i :: 0 <= i < |out| ==> out[i].1 == Lookup(props, out[i].0))
  {
    var sorted := Sort(Keys(props));
    var kept := KeepLong(sorted);
    var out := Gather(kept, props);
    SortObjOfPlain(props);
    assert SortedProps(props) == out;
    SortSorted(Keys(props));
    RetainSorted(sorted, LongKey);
    RetainSorted(kept, Assignable);
    SortKeepsMembers(Keys(props));
  }

  /** On a plain object, `sort_obj` rebuilds the property list. */
  lemma SortObjOfPlain(props: seq<(string, Value)>)
    ensures SortObj(Object(props)) == Returns(Object(SortedProps(props)))
  {
    assert SortObj(Object(props)) == Returns(Object(SortedProps(OwnEntries(Object(props)))));
    assert OwnEntries(Object(props)) == props;
  }

  /** Sorting neither adds nor drops a key. */
  lemma SortKeepsMembers(keys: seq<string>)
    ensures forall k :: k in Sort(keys) <==> k in keys
  {
    var sorted := Sort(keys);
    forall k
      ensures k in sorted <==> k in keys
    {
      assert k in sorted <==> k in multiset(sorted);
      assert k in keys <==> k in multiset(keys);
    }
  }

  /** Every key is at most every later key. */
  ghost predicate Ordered(keys: seq<string>)
  {
    forall i, j :: 0 <= i < j < |keys| ==> StrLe(keys[i], keys[j])
  }

  /** Adjacent order extends to all pairs. */
  lemma {:induction false} SortedIsOrdered(keys: seq<string>)
    requires Sorted(keys)
    ensures Ordered(keys)
  {
    if keys != [] {
      var tail := keys[1..];
      SortedIsOrdered(tail);
      forall j | 0 < j < |keys|
        ensures StrLe(keys[0], keys[j])
      {
        if j > 1 {
          assert StrLe(tail[0], tail[j - 1]);
          StrLeTransitive(keys[0], keys[1], keys[j]);
        }
      }
    }
  }

  /** Filtering a sequence whose keys are all in order keeps them in order. */
  lemma {:induction false} RetainOrdered(keys: seq<string>, keep: string -> bool)
    requires Ordered(keys)
    ensures Ordered(Retain(keys, keep))
  {
    if keys != [] {
      var tail := keys[1..];
      assert Ordered(tail) by {
        forall i, j | 0 <= i < j < |tail| ensures StrLe(tail[i], tail[j]) {
          assert StrLe(keys[i + 1], keys[j + 1]);
        }
      }
      RetainOrdered(tail, keep);
      var rest := Retain(tail, keep);
      if keep(keys[0]) {
        var r := [keys[0]] + rest;
        forall i, j | 0 <= i < j < |r| ensures StrLe(r[i], r[j]) {
          if i == 0 {
            assert r[j] in tail;
            var m :| 0 <= m < |tail| && tail[m] == r[j];
            assert StrLe(keys[0], keys[m + 1]);
          } else {
            assert StrLe(rest[i - 1], rest[j - 1]);
          }
        }
      }
    }
  }

  /** Filtering a sorted sequence keeps it sorted. */
  lemma RetainSorted(keys: seq<string>, keep: string -> bool)
    requires Sorted(keys)
    ensures Sorted(Retain(keys, keep))
  {
    SortedIsOrdered(keys);
    RetainOrdered(keys, keep);
  }

  /** Filtering keys that all pass the filter keeps them all. */
  lemma {:induction false} RetainAll(keys: seq<string>, keep: string -> bool)
    requires forall k :: k in keys ==> keep(k)
    ensures Retain(keys, keep) == keys
  {
    if keys != [] {
      var tail := keys[1..];
      assert keep(keys[0]);
      forall k | k in tail
        ensures keep(k)
      {
        assert k in keys;
      }
      RetainAll(tail, keep);
      assert keys == [keys[0]] + tail;
    }
  }

  lemma {:induction false} StrLeReflexive(a: string)
    ensures StrLe(a, a)
  {
    if a != [] {
      StrLeReflexive(a[1..]);
    }
  }

  lemma {:induction false} StrLeTransitive(a: string, b: string, c: string)
    requires StrLe(a, b) && StrLe(b, c)
    ensures StrLe(a, c)
  {
    if a != [] && b != [] && c != [] && a[0] == b[0] && b[0] == c[0] {
      StrLeTransitive(a[1..], b[1..], c[1..]);
    }
  }

  /**
   * Two sorted arrangements of the same keys are the same sequence, so
   * any correct sort, whatever its algorithm, returns what `Sort` returns.
   */
  lemma {:induction false} SortedPermutationUnique(a: seq<string>, b: seq<string>)
    requires Sorted(a) && Sorted(b) && multiset(a) == multiset(b)
    ensures a == b
    decreases |a|
  {
    assert |a| == |multiset(a)| == |multiset(b)| == |b|;
    if a != [] {
      assert a[0] in multiset(b) && b[0] in multiset(a);
      SortedHeadIsLeast(b, a[0]);
      SortedHeadIsLeast(a, b[0]);
      StrLeAntisymmetric(a[0], b[0]);
      TailsSameMultiset(a, b);
      SortedTail(a);
      SortedTail(b);
      SortedPermutationUnique(a[1..], b[1..]);
      assert a == [a[0]] + a[1..] && b == [b[0]] + b[1..];
    }
  }

  /** The first key of a sorted sequence is at most any of its keys. */
  lemma SortedHeadIsLeast(a: seq<string>, x: string)
    requires Sorted(a) && x in a
    ensures StrLe(a[0], x)
  {
    SortedIsOrdered(a);
    var i :| 0 <= i < |a| && a[i] == x;
    if i == 0 { StrLeReflexive(x); }
  }

  lemma SortedTail(a: seq<string>)
    requires Sorted(a) && a != []
    ensures Sorted(a[1..])
  {
    forall i | 0 < i < |a| - 1 ensures StrLe(a[1..][i - 1], a[1..][i]) {
      assert StrLe(a[i], a[i + 1]);
    }
  }

  lemma TailsSameMultiset(a: seq<string>, b: seq<string>)
    requires a != [] && b != [] && a[0] == b[0] && multiset(a) == multiset(b)
    ensures multiset(a[1..]) == multiset(b[1..])
  {
    assert a == [a[0]] + a[1..];
    assert b == [b[0]] + b[1..];
    assert multiset(a[1..]) == multiset(a) - multiset{a[0]};
    assert multiset(b[1..]) == multiset(b) - multiset{b[0]};
  }

  /** `Sort` is the one sorted permutation of its input. */
  lemma SortIsUnique(keys: seq<string>, sorted: seq<string>)
    requires Sorted(sorted) && multiset(sorted) == multiset(keys)
    ensures sorted == Sort(keys)
  {
    SortSorted(keys);
    SortedPermutationUnique(sorted, Sort(keys));
  }

  /** Every assignable key of a rebuilt property list finds the value of its first occurrence. */
  lemma {:induction false} GatherOwnKeys(props: seq<(string, Value)>, keys: seq<string>, from: seq<(string, Value)>)
    requires props == Gather(keys, from)
    ensures forall k :: k in keys && Assignable(k) ==> Lookup(props, k) == Lookup(from, k)
  {
    if keys != [] {
      if Assignable(keys[0]) {
        GatherOwnKeys(props[1..], keys[1..], from);
      } else {
        GatherOwnKeys(props, keys[1..], from);
      }
    }
  }

  /** Dropping `__proto__` from the keys beforehand changes nothing. */
  lemma {:induction false} GatherDropsUnassignable(keys: seq<string>, from: seq<(string, Value)>)
    ensures Gather(Retain(keys, Assignable), from) == Gather(keys, from)
  {
    if keys != [] {
      GatherDropsUnassignable(keys[1..], from);
    }
  }

  /** `sort_obj` is idempotent on plain objects. */
  lemma SortObjIdempotent(props: seq<(string, Value)>)
    ensures SortObj(Object(props)).Returns?
    ensures SortObj(SortObj(Object(props)).value) == SortObj(Object(props))
  {
    SortObjOfPlain(props);
    SortObjOfPlain(SortedProps(props));
    SortedPropsIdempotent(props);
  }

  /** Rebuilding a rebuilt property list changes nothing. */
  lemma SortedPropsIdempotent(props: seq<(string, Value)>)
    ensures SortedProps(SortedProps(props)) == SortedProps(props)
  {
    var sorted := Sort(Keys(props));
    SortSorted(Keys(props));
    RetainSorted(sorted, LongKey);
    SortedPropsFixed(KeepLong(sorted), props);
  }

  /** A property list gathered from sorted keys of two or more characters is its own `SortedProps`. */
  lemma SortedPropsFixed(keys: seq<string>, props: seq<(string, Value)>)
    requires Sorted(keys) && forall k :: k in keys ==> |k| >= 2
    ensures SortedProps(Gather(keys, props)) == Gather(keys, props)
  {
    var out := Gather(keys, props);
    var own := Retain(keys, Assignable);
    assert Keys(out) == own;
    RetainSorted(keys, Assignable);
    SortOfSorted(own);
    RetainAll(own, LongKey);
    assert SortedProps(out) == Gather(own, out);
    RetainAll(own, Assignable);
    GatherOwnKeys(out, keys, props);
    GatherSameValues(own, out, props);
    GatherDropsUnassignable(keys, props);
  }

  /** Gathering the same keys from two sources that agree on them gives the same list. */
  lemma {:induction false} GatherSameValues(keys: seq<string>, a: seq<(string, Value)>, b: seq<(string, Value)>)
    requires forall k :: k in keys && Assignable(k) ==> Lookup(a, k) == Lookup(b, k)
    ensures Gather(keys, a) == Gather(keys, b)
  {
    if keys != [] {
      GatherSameValues(keys[1..], a, b);
    }
  }
}
