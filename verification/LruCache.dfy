/**
  The least-recently-used caches built on a JavaScript Map: re-inserting moves a key to
  the end of the insertion order, and the first key is dropped while the map is too big.
*/
module LruCache {
  import opened Basics

  type Entries<K, V> = seq<(K, V)>

  function Find<K(==), V>(m: Entries<K, V>, key: K): Option<V> {
    if m == [] then None else if m[0].0 == key then Some(m[0].1) else Find(m[1..], key)
  }

  function Remove<K(==), V>(m: Entries<K, V>, key: K): Entries<K, V> {
    if m == [] then [] else if m[0].0 == key then Remove(m[1..], key) else [m[0]] + Remove(m[1..], key)
  }

  /** The last `cap` elements. */
  function Newest<T>(m: seq<T>, cap: nat): seq<T> {
    if |m| <= cap then m else m[|m| - cap..]
  }

  function Touch<K(==), V>(m: Entries<K, V>, key: K, value: V, cap: nat): Entries<K, V> {
    Newest(Remove(m, key) + [(key, value)], cap)
  }

  function Keys<K, V>(m: Entries<K, V>): seq<K> {
    seq(|m|, i requires 0 <= i < |m| => m[i].0)
  }

  lemma {:induction false} RemoveMeaning<K, V>(m: Entries<K, V>, key: K, e: (K, V))
    ensures e in Remove(m, key) <==> e in m && e.0 != key
    ensures |Remove(m, key)| <= |m|
  {
    if m != [] { RemoveMeaning(m[1..], key, e); }
  }

  lemma {:induction false} RemoveAbsent<K, V>(m: Entries<K, V>, key: K)
    requires Find(m, key).None?
    ensures Remove(m, key) == m
  {
    if m != [] { RemoveAbsent(m[1..], key); }
  }

  lemma {:induction false} FindMeaning<K, V>(m: Entries<K, V>, key: K)
    ensures Find(m, key).Some? ==> (key, Find(m, key).value) in m
    ensures Find(m, key).None? ==> forall e <- m :: e.0 != key
  {
    if m != [] { FindMeaning(m[1..], key); }
  }

  lemma InNewest<T>(m: seq<T>, cap: nat, x: T)
    requires x in Newest(m, cap)
    ensures x in m
  {
  }

  /** Touching keeps the size bound, stores the new pair last, and invents nothing. */
  lemma TouchMeaning<K, V>(m: Entries<K, V>, key: K, value: V, cap: nat)
    requires cap > 0
    ensures var t := Touch(m, key, value, cap);
            |t| <= cap && t != [] && t[|t| - 1] == (key, value) &&
            forall e <- t :: e == (key, value) || (e in m && e.0 != key)
  {
    var full := Remove(m, key) + [(key, value)];
    forall e | e in Touch(m, key, value, cap) ensures e == (key, value) || (e in m && e.0 != key) {
      InNewest(full, cap, e);
      RemoveMeaning(m, key, e);
    }
  }

  // ----- which keys a cache holds

  /** Distinct keys in the order of their last use. */
  function ByLastUse<K(==)>(history: seq<K>): seq<K> {
    if history == [] then []
    else Without(ByLastUse(history[..|history| - 1]), history[|history| - 1]) + [history[|history| - 1]]
  }

  function Without<K(==)>(keys: seq<K>, key: K): seq<K> {
    if keys == [] then [] else if keys[0] == key then Without(keys[1..], key) else [keys[0]] + Without(keys[1..], key)
  }

  /** The distinct keys used after the last use of `key`. */
  ghost function UsedSince<K>(history: seq<K>, key: K): set<K> {
    if history == [] || history[|history| - 1] == key then {}
    else UsedSince(history[..|history| - 1], key) + {history[|history| - 1]}
  }

  ghost function ToSet<K>(keys: seq<K>): set<K> {
    set x | x in keys
  }

  lemma {:induction false} WithoutMeaning<K>(keys: seq<K>, key: K)
    ensures forall x :: x in Without(keys, key) <==> x in keys && x != key
    ensures key !in keys ==> Without(keys, key) == keys
  {
    if keys != [] {
      WithoutMeaning(keys[1..], key);
      assert forall x :: x in keys <==> x == keys[0] || x in keys[1..];
    }
  }

  lemma {:induction false} WithoutDistinct<K(!new)>(keys: seq<K>, key: K)
    requires NoDup(keys)
    ensures NoDup(Without(keys, key)) && |Without(keys, key)| == if key in keys then |keys| - 1 else |keys|
  {
    if keys != [] {
      WithoutDistinct(keys[1..], key);
      WithoutMeaning(keys[1..], key);
      assert keys[0] !in keys[1..];
    }
  }

  lemma {:induction false} WithoutConcat<K>(a: seq<K>, b: seq<K>, key: K)
    ensures Without(a + b, key) == Without(a, key) + Without(b, key)
  {
    if a == [] {
      assert a + b == b;
    } else {
      assert (a + b)[1..] == a[1..] + b;
      WithoutConcat(a[1..], b, key);
    }
  }

  lemma {:induction false} ByLastUseDistinct<K(!new)>(history: seq<K>)
    ensures NoDup(ByLastUse(history))
    ensures forall x :: x in ByLastUse(history) <==> x in history
  {
    if history != [] {
      var init, last := history[..|history| - 1], history[|history| - 1];
      ByLastUseDistinct(init);
      WithoutMeaning(ByLastUse(init), last);
      WithoutDistinct(ByLastUse(init), last);
      assert history == init + [last];
    }
  }

  lemma KeysOfCons<K, V>(e: (K, V), m: Entries<K, V>)
    ensures Keys([e] + m) == [e.0] + Keys(m)
  {
  }

  lemma {:induction false} KeysOfRemove<K, V>(m: Entries<K, V>, key: K)
    ensures Keys(Remove(m, key)) == Without(Keys(m), key)
  {
    if m != [] {
      KeysOfRemove(m[1..], key);
      assert Keys(m)[1..] == Keys(m[1..]);
      KeysOfCons(m[0], Remove(m[1..], key));
    }
  }

  /** Dropping from the front of `a` does not change the newest of `a + b` when `b` is long enough. */
  lemma NewestOfSuffix<T>(a: seq<T>, b: seq<T>, cap: nat)
    requires |b| >= cap
    ensures Newest(a + b, cap) == Newest(b, cap)
  {
    var m := a + b;
    assert m[|m| - cap..] == b[|b| - cap..];
    assert |b| == cap ==> b[0..] == b;
  }

  lemma TrimEarlyOrLate<K(!new)>(order: seq<K>, key: K, cap: nat)
    requires cap > 0 && NoDup(order)
    ensures Newest(Without(Newest(order, cap), key) + [key], cap) == Newest(Without(order, key) + [key], cap)
  {
    if |order| > cap {
      var dropped, kept := order[..|order| - cap], order[|order| - cap..];
      var rest := Without(kept, key);
      assert |rest + [key]| >= cap by {
        if key in kept { WithoutDistinct(kept, key); } else { WithoutMeaning(kept, key); }
      }
      assert Without(order, key) + [key] == Without(dropped, key) + (rest + [key]) by {
        assert order == dropped + kept;
        WithoutConcat(dropped, kept, key);
      }
      NewestOfSuffix(Without(dropped, key), rest + [key], cap);
    }
  }

  /** Trimming early or late is the same: a touched cache follows the untrimmed order. */
  lemma TouchFollowsOrder<K(!new), V>(m: Entries<K, V>, key: K, value: V, cap: nat, order: seq<K>)
    requires cap > 0 && NoDup(order) && Keys(m) == Newest(order, cap)
    ensures Keys(Touch(m, key, value, cap)) == Newest(Without(order, key) + [key], cap)
  {
    KeysOfRemove(m, key);
    var full := Remove(m, key) + [(key, value)];
    assert Keys(full) == Without(Keys(m), key) + [key];
    assert Keys(Newest(full, cap)) == Newest(Keys(full), cap);
    TrimEarlyOrLate(order, key, cap);
  }

  lemma DropLast<T>(w: seq<T>, last: T, before: seq<T>, x: T, after: seq<T>)
    requires w + [last] == before + [x] + after && after != []
    ensures last == after[|after| - 1] && w == before + [x] + after[..|after| - 1]
  {
    var whole := before + [x] + after;
    assert w == whole[..|whole| - 1];
    assert last == whole[|whole| - 1];
  }

  lemma {:induction false} UsedSinceIsTail<K(!new)>(history: seq<K>, before: seq<K>, key: K, after: seq<K>)
    requires ByLastUse(history) == before + [key] + after
    ensures UsedSince(history, key) == ToSet(after)
    decreases |history|
  {
    var init, last := history[..|history| - 1], history[|history| - 1];
    var order := ByLastUse(init);
    assert Without(order, last) + [last] == before + [key] + after;
    if after == [] {
      assert (before + [key] + after)[|before|] == last;
    } else {
      DropLast(Without(order, last), last, before, key, after);
      ByLastUseDistinct(init);
      WithoutDistinct(order, last);
      WithoutMeaning(order, last);
      assert (before + [key] + after[..|after| - 1])[|before|] == key;
      assert key in Without(order, last);
      var j :| 0 <= j < |order| && order[j] == key;
      SplitWithout(order, j, last, before, after[..|after| - 1]);
      UsedSinceIsTail(init, order[..j], key, order[j + 1..]);
      TailGrows(order[j + 1..], last, after);
    }
  }

  lemma TailGrows<K(!new)>(tail: seq<K>, last: K, after: seq<K>)
    requires after != [] && last == after[|after| - 1] && Without(tail, last) == after[..|after| - 1]
    ensures ToSet(tail) + {last} == ToSet(after)
  {
    WithoutMeaning(tail, last);
    assert after == after[..|after| - 1] + [last];
  }

  lemma SplitWithout<K(!new)>(order: seq<K>, j: nat, last: K, before: seq<K>, after: seq<K>)
    requires j < |order| && order[j] != last && NoDup(before + [order[j]] + after)
    requires Without(order, last) == before + [order[j]] + after
    ensures order == order[..j] + [order[j]] + order[j + 1..]
    ensures Without(order[j + 1..], last) == after
  {
    var key := order[j];
    assert order == order[..j] + ([key] + order[j + 1..]);
    WithoutConcat(order[..j], [key] + order[j + 1..], last);
    assert ([key] + order[j + 1..])[1..] == order[j + 1..];
    var w := Without(order, last);
    var head := Without(order[..j], last);
    assert w[|head|] == key && w[|before|] == key;
    assert |head| == |before|;
    assert w[|head| + 1..] == Without(order[j + 1..], last);
    assert w[|before| + 1..] == after;
  }

  lemma KeptIffLate<K(!new)>(order: seq<K>, cap: nat, i: nat)
    requires NoDup(order) && i < |order|
    ensures order[i] in Newest(order, cap) <==> |order| - i <= cap
  {
    var kept := Newest(order, cap);
    var dropped := |order| - |kept|;
    assert forall j :: 0 <= j < |kept| ==> kept[j] == order[dropped + j];
    if i >= dropped {
      assert kept[i - dropped] == order[i];
    }
  }

  /** A key is cached exactly when it was used and fewer than `cap` other keys were used since. */
  lemma CachedIffRecent<K(!new), V>(m: Entries<K, V>, history: seq<K>, cap: nat, key: K)
    requires cap > 0 && Keys(m) == Newest(ByLastUse(history), cap)
    ensures key in Keys(m) <==> key in history && |UsedSince(history, key)| < cap
  {
    hide ByLastUse, UsedSince, Newest, Keys;
    var order := ByLastUse(history);
    ByLastUseDistinct(history);
    if key in history {
      var i :| 0 <= i < |order| && order[i] == key;
      assert order == order[..i] + [key] + order[i + 1..];
      UsedSinceIsTail(history, order[..i], key, order[i + 1..]);
      NoDupCard(order[i + 1..]);
      KeptIffLate(order, cap, i);
    } else if key in Keys(m) {
      InNewest(order, cap, key);
    }
  }
}
