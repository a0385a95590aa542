/**
 * StorageUtils (public_html/storage-utils.js): a namespaced layer over the
 * browser's localStorage. Every key it touches carries the `owt_` prefix;
 * values go through JSON.stringify on the way in and JSON.parse on the way out.
 */
module StorageUtils {
  import opened Wrappers
  import opened Strings
  import opened JsonValue

  const Prefix: string := "owt_"

  /** A stored text: the text `JSON.stringify(value)`, or a text that JSON.parse rejects. */
  datatype Stored = Json(value: Value) | Unparseable(text: string)

  /** The entries of `s` that are not in `drop`, in their order. */
  function Keep(s: seq<string>, drop: set<string>): seq<string>
    decreases |s|
  {
    if |s| == 0 then [] else (if s[0] in drop then [] else [s[0]]) + Keep(s[1..], drop)
  }

  lemma {:induction false} KeepMembers(s: seq<string>, drop: set<string>)
    ensures forall x :: x in Keep(s, drop) <==> x in s && x !in drop
    decreases |s|
  {
    if |s| > 0 {
      KeepMembers(s[1..], drop);
      assert forall x :: x in s <==> x == s[0] || x in s[1..];
    }
  }

  lemma {:induction false} KeepDistinct(s: seq<string>, drop: set<string>)
    requires Distinct(s)
    ensures Distinct(Keep(s, drop))
    decreases |s|
  {
    if |s| > 0 {
      assert Distinct(s[1..]);
      KeepDistinct(s[1..], drop);
      KeepMembers(s[1..], drop);
      assert s[0] !in s[1..];
    }
  }

  lemma {:induction false} KeepNothing(s: seq<string>)
    ensures Keep(s, {}) == s
    decreases |s|
  {
    if |s| > 0 {
      KeepNothing(s[1..]);
      assert s == [s[0]] + s[1..];
    }
  }

  lemma {:induction false} KeepTwice(s: seq<string>, a: set<string>, b: set<string>)
    ensures Keep(Keep(s, a), b) == Keep(s, a + b)
    decreases |s|
  {
    if |s| > 0 {
      KeepTwice(s[1..], a, b);
      if s[0] !in a {
        assert Keep(s, a) == [s[0]] + Keep(s[1..], a);
        assert ([s[0]] + Keep(s[1..], a))[1..] == Keep(s[1..], a);
      } else {
        assert Keep(s, a) == Keep(s[1..], a);
      }
    }
  }

  /** The browser's localStorage: a string-keyed store whose keys `key(i)` enumerates in some order. */
  class LocalStorage {
    /** The keys, in the order `key(i)` yields them. */
    var keys: seq<string>
    var items: map<string, Stored>

    ghost predicate Valid()
      reads this
    {
      Distinct(keys) && forall k :: k in items <==> k in keys
    }

    constructor ()
      ensures Valid() && keys == [] && items == map[]
    {
      keys := [];
      items := map[];
    }

    /** `localStorage.length`. */
    function Length(): nat
      reads this
    {
      |keys|
    }

    /** `localStorage.key(i)`: `None` is `null`, past the end. */
    function Key(i: nat): Option<string>
      reads this
    {
      if i < |keys| then Some(keys[i]) else None
    }

    /** `localStorage.getItem(k)`: `None` is `null`. */
    function GetItem(k: string): Option<Stored>
      reads this
    {
      if k in items then Some(items[k]) else None
    }

    /** `localStorage.setItem(k, v)`: a new key goes to the end of the enumeration. */
    method SetItem(k: string, v: Stored)
      requires Valid()
      modifies this
      ensures Valid()
      ensures items == old(items)[k := v]
      ensures keys == if k in old(keys) then old(keys) else old(keys) + [k]
    {
      if k !in keys {
        keys := keys + [k];
      }
      items := items[k := v];
    }

    /** `localStorage.removeItem(k)`: nothing happens when `k` is absent. */
    method RemoveItem(k: string)
      requires Valid()
      modifies this
      ensures Valid()
      ensures items == old(items) - {k}
      ensures keys == Keep(old(keys), {k})
    {
      KeepMembers(keys, {k});
      KeepDistinct(keys, {k});
      keys := Keep(keys, {k});
      items := items - {k};
    }
  }

  /** save(key, value): writes the one entry `'owt_' + key`, never throwing. */
  method Save(ls: LocalStorage, key: string, value: Value)
    requires ls.Valid()
    modifies ls
    ensures ls.Valid()
    ensures ls.items == old(ls.items)[Prefix + key := Json(value)]
    ensures ls.keys == if Prefix + key in old(ls.keys) then old(ls.keys) else old(ls.keys) + [Prefix + key]
  {
    ls.SetItem(Prefix + key, Json(value));
  }

  /** What load(key, defaultValue) returns from a store holding `items`. */
  function LoadFrom(items: map<string, Stored>, key: string, defaultValue: Value): Value
  {
    if Prefix + key in items && items[Prefix + key].Json? then items[Prefix + key].value
    else defaultValue
  }

  /** load(key, defaultValue): the parsed entry, or the default when it is absent or does not parse. */
  function Load(ls: LocalStorage, key: string, defaultValue: Value := Null): (r: Value)
    reads ls
    ensures ls.GetItem(Prefix + key).None? ==> r == defaultValue
    ensures ls.GetItem(Prefix + key).Some? && ls.GetItem(Prefix + key).value.Unparseable? ==> r == defaultValue
    ensures ls.GetItem(Prefix + key).Some? && ls.GetItem(Prefix + key).value.Json? ==>
      r == ls.GetItem(Prefix + key).value.value
    ensures r == LoadFrom(ls.items, key, defaultValue)
  {
    var item := ls.GetItem(Prefix + key);
    if item.Some? then
      match item.value
      case Json(v) => v
      case Unparseable(_) => defaultValue
    else defaultValue
  }

  /**
   * Loading a key from the store as Save leaves it (the entries `before`
   * with `'owt_' + key` set) gives the saved value back, whatever the default.
   */
  lemma SaveThenLoad(ls: LocalStorage, before: map<string, Stored>, key: string, value: Value, defaultValue: Value)
    requires ls.items == before[Prefix + key := Json(value)]
    ensures Load(ls, key, defaultValue) == value
  {
  }

  /** After Save, every other key loads what it loaded from the entries `before`. */
  lemma SaveKeepsOthers(ls: LocalStorage, before: map<string, Stored>, key: string, other: string,
                        value: Value, defaultValue: Value)
    requires ls.items == before[Prefix + key := Json(value)]
    requires other != key
    ensures Load(ls, other, defaultValue) == LoadFrom(before, other, defaultValue)
  {
    assert Prefix + other != Prefix + key by {
      assert (Prefix + other)[|Prefix|..] == other;
      assert (Prefix + key)[|Prefix|..] == key;
    }
  }

  /**
   * Save followed by load: the saved key reads back its value and every
   * other key reads what it read before.
   */
  method SaveAndReload(ls: LocalStorage, key: string, value: Value, defaultValue: Value) returns (r: Value)
    requires ls.Valid()
    modifies ls
    ensures r == value
    ensures forall other :: other != key ==> Load(ls, other, defaultValue) == old(Load(ls, other, defaultValue))
  {
    ghost var before := ls.items;
    Save(ls, key, value);
    SaveThenLoad(ls, before, key, value, defaultValue);
    forall other | other != key
      ensures Load(ls, other, defaultValue) == LoadFrom(before, other, defaultValue)
    {
      SaveKeepsOthers(ls, before, key, other, value, defaultValue);
    }
    r := Load(ls, key, defaultValue);
  }

  /** remove(key): deletes exactly `'owt_' + key`. */
  method Remove(ls: LocalStorage, key: string)
    requires ls.Valid()
    modifies ls
    ensures ls.Valid()
    ensures ls.items == old(ls.items) - {Prefix + key}
    ensures ls.keys == Keep(old(ls.keys), {Prefix + key})
  {
    ls.RemoveItem(Prefix + key);
  }

  /** The set of the entries of `s`. */
  function Elements(s: seq<string>): set<string>
  {
    set k | k in s
  }

  /** The keys of `s` that carry the prefix, in order. */
  function Prefixed(s: seq<string>): (r: seq<string>)
    ensures forall x :: x in r <==> x in s && StartsWith(x, Prefix)
    decreases |s|
  {
    if |s| == 0 then []
    else
      assert forall x :: x in s <==> x == s[0] || x in s[1..];
      (if StartsWith(s[0], Prefix) then [s[0]] else []) + Prefixed(s[1..])
  }

  /**
   * clearAll: first collect every prefixed key by index, then remove them
   * one by one. Exactly the prefixed entries go; every other entry stays,
   * with its value and its place in the enumeration.
   */
  method ClearAll(ls: LocalStorage)
    requires ls.Valid()
    modifies ls
    ensures ls.Valid()
    ensures ls.items == map k | k in old(ls.items) && !StartsWith(k, Prefix) :: old(ls.items)[k]
    ensures ls.keys == Keep(old(ls.keys), set k | k in old(ls.keys) && StartsWith(k, Prefix))
  {
    var keysToRemove := CollectPrefixed(ls);
    ClearedState(ls.items, ls.keys, keysToRemove);
    RemoveEach(ls, keysToRemove);
  }

  /** clearAll's first loop: the prefixed keys, by index, in enumeration order. */
  method CollectPrefixed(ls: LocalStorage) returns (keysToRemove: seq<string>)
    ensures keysToRemove == Prefixed(ls.keys)
  {
    keysToRemove := [];
    var i := 0;
    while i < ls.Length()
      invariant 0 <= i <= |ls.keys|
      invariant keysToRemove == Prefixed(ls.keys[..i])
    {
      var key := ls.Key(i);
      PrefixedAppend(ls.keys[..i], ls.keys[i]);
      assert ls.keys[..i + 1] == ls.keys[..i] + [ls.keys[i]];
      if key.Some? && StartsWith(key.value, Prefix) {
        keysToRemove := keysToRemove + [key.value];
      }
      i := i + 1;
    }
    assert ls.keys[..i] == ls.keys;
  }

  /** clearAll's second loop: `keysToRemove.forEach(key => localStorage.removeItem(key))`. */
  method RemoveEach(ls: LocalStorage, keysToRemove: seq<string>)
    requires ls.Valid()
    modifies ls
    ensures ls.Valid()
    ensures ls.items == old(ls.items) - Elements(keysToRemove)
    ensures ls.keys == Keep(old(ls.keys), Elements(keysToRemove))
  {
    ghost var keys0, items0 := ls.keys, ls.items;
    var j := 0;
    assert Elements(keysToRemove[..0]) == {};
    KeepNothing(keys0);
    while j < |keysToRemove|
      invariant 0 <= j <= |keysToRemove|
      invariant ls.Valid()
      invariant ls.items == items0 - Elements(keysToRemove[..j])
      invariant ls.keys == Keep(keys0, Elements(keysToRemove[..j]))
    {
      ghost var done := Elements(keysToRemove[..j]);
      var key := keysToRemove[j];
      ls.RemoveItem(key);
      ElementsSnoc(keysToRemove, j);
      KeepTwice(keys0, done, {key});
      MinusTwice(items0, done, {key});
      j := j + 1;
    }
    assert keysToRemove[..j] == keysToRemove;
  }

  lemma MinusTwice(m: map<string, Stored>, a: set<string>, b: set<string>)
    ensures (m - a) - b == m - (a + b)
  {
  }

  lemma ElementsSnoc(s: seq<string>, j: nat)
    requires j < |s|
    ensures Elements(s[..j + 1]) == Elements(s[..j]) + {s[j]}
  {
    assert s[..j + 1] == s[..j] + [s[j]];
  }

  /** Removing the collected keys leaves exactly the unprefixed entries. */
  lemma ClearedState(items: map<string, Stored>, keys: seq<string>, collected: seq<string>)
    requires forall k :: k in items <==> k in keys
    requires collected == Prefixed(keys)
    ensures Elements(collected) == set k | k in keys && StartsWith(k, Prefix)
    ensures items - Elements(collected) == map k | k in items && !StartsWith(k, Prefix) :: items[k]
  {
  }

  lemma {:induction false} PrefixedAppend(s: seq<string>, x: string)
    ensures Prefixed(s + [x]) == Prefixed(s) + (if StartsWith(x, Prefix) then [x] else [])
    decreases |s|
  {
    if |s| == 0 {
      assert s + [x] == [x];
    } else {
      assert (s + [x])[0] == s[0];
      assert (s + [x])[1..] == s[1..] + [x];
      PrefixedAppend(s[1..], x);
    }
  }

  /** saveList is save. */
  method SaveList(ls: LocalStorage, listKey: string, items: Value)
    requires ls.Valid()
    modifies ls
    ensures ls.Valid()
    ensures ls.items == old(ls.items)[Prefix + listKey := Json(items)]
    ensures ls.keys == if Prefix + listKey in old(ls.keys) then old(ls.keys) else old(ls.keys) + [Prefix + listKey]
  {
    Save(ls, listKey, items);
  }

  /** loadList: load with the empty list as the default default. */
  function LoadList(ls: LocalStorage, listKey: string, defaultValue: Value := Arr([])): (r: Value)
    reads ls
    ensures ls.GetItem(Prefix + listKey).None? ==> r == defaultValue
    ensures ls.GetItem(Prefix + listKey).Some? && ls.GetItem(Prefix + listKey).value.Unparseable? ==> r == defaultValue
    ensures ls.GetItem(Prefix + listKey).Some? && ls.GetItem(Prefix + listKey).value.Json? ==>
      r == ls.GetItem(Prefix + listKey).value.value
    ensures r == LoadFrom(ls.items, listKey, defaultValue)
  {
    Load(ls, listKey, defaultValue)
  }
}
