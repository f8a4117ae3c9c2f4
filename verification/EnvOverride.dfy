/** Overriding a container's environment list: KEY=VALUE entries replaced, appended and removed in place. */
module EnvOverride {
  /** strings.Index(s, "="), or -1. */
  function IndexOfEquals(s: string): (i: int)
    ensures i == -1 <==> '=' !in s
    ensures -1 <= i < |s|
    ensures i >= 0 ==> s[i] == '=' && '=' !in s[..i]
  {
    if s == [] then -1
    else if s[0] == '=' then 0
    else
      var i := IndexOfEquals(s[1..]);
      assert i >= 0 ==> s[..i + 1] == [s[0]] + s[1..][..i];
      if i < 0 then -1 else i + 1
  }

  function Key(entry: string): string {
    var i := IndexOfEquals(entry);
    if i < 0 then entry else entry[..i]
  }

  /** The last word of a list of overrides on a key. A bare key asks for removal. */
  datatype Setting = Untouched | Set(entry: string) | Unset

  function Request(override: string): Setting {
    if '=' in override then Set(override) else Unset
  }

  function LastSetting(overrides: seq<string>, key: string): Setting {
    if overrides == [] then Untouched
    else
      var last := overrides[|overrides| - 1];
      if Key(last) == key then Request(last) else LastSetting(overrides[..|overrides| - 1], key)
  }

  predicate KeyAt(entries: seq<string>, i: int, key: string) {
    0 <= i < |entries| && Key(entries[i]) == key
  }

  /** Some entry from position lo up to hi has the key. */
  predicate KeyWithin(entries: seq<string>, lo: int, hi: int, key: string) {
    exists i :: lo <= i < hi && KeyAt(entries, i, key)
  }

  predicate HasKey(entries: seq<string>, key: string) {
    KeyWithin(entries, 0, |entries|, key)
  }

  /** The i-th default after the overrides; removal is marked with the empty string. Of equal keys the last counts. */
  function Slot(defaults: seq<string>, overrides: seq<string>, i: nat): string
    requires i < |defaults|
  {
    if KeyWithin(defaults, i + 1, |defaults|, Key(defaults[i])) then defaults[i]
    else match LastSetting(overrides, Key(defaults[i]))
      case Untouched => defaults[i]
      case Set(entry) => entry
      case Unset => ""
  }

  function Slots(defaults: seq<string>, overrides: seq<string>): (s: seq<string>)
    ensures |s| == |defaults|
  {
    seq(|defaults|, i requires 0 <= i < |defaults| => Slot(defaults, overrides, i))
  }

  /** The overrides that set a key the defaults do not have, in order. */
  function Added(defaults: seq<string>, overrides: seq<string>): seq<string> {
    if overrides == [] then []
    else
      var last := overrides[|overrides| - 1];
      Added(defaults, overrides[..|overrides| - 1])
      + (if '=' in last && !HasKey(defaults, Key(last)) then [last] else [])
  }

  function Compact(entries: seq<string>): seq<string> {
    if entries == [] then []
    else (if entries[0] == "" then [] else [entries[0]]) + Compact(entries[1..])
  }

  function Overridden(defaults: seq<string>, overrides: seq<string>): seq<string> {
    Compact(Slots(defaults, overrides)) + Added(defaults, overrides)
  }

  lemma {:induction false} CompactConcat(a: seq<string>, b: seq<string>)
    ensures Compact(a + b) == Compact(a) + Compact(b)
  {
    if a == [] {
      assert a + b == b;
    } else {
      var head := if a[0] == "" then [] else [a[0]];
      CompactConcat(a[1..], b);
      assert (a + b)[1..] == a[1..] + b;
      assert Compact(a + b) == head + Compact(a[1..] + b);
      assert Compact(a) == head + Compact(a[1..]);
    }
  }

  lemma {:induction false} CompactKeepsNonEmpty(a: seq<string>)
    requires "" !in a
    ensures Compact(a) == a
  {
    if a != [] {
      CompactKeepsNonEmpty(a[1..]);
      assert a[0] in a;
    }
  }

  lemma {:induction false} AddedIsNonEmpty(defaults: seq<string>, overrides: seq<string>)
    ensures "" !in Added(defaults, overrides)
  {
    if overrides != [] {
      AddedIsNonEmpty(defaults, overrides[..|overrides| - 1]);
    }
  }

  /** The index map: each key among the first entries, to its last position there. */
  ghost predicate Indexes(cache: map<string, int>, defaults: seq<string>, upto: int) {
    forall k ::
      && (k in cache <==> KeyWithin(defaults, 0, upto, k))
      && (k in cache ==> cache[k] < upto && KeyAt(defaults, cache[k], k) && !KeyWithin(defaults, cache[k] + 1, upto, k))
  }

  lemma IndexesOneMore(cache: map<string, int>, defaults: seq<string>, i: int)
    requires 0 <= i < |defaults| && Indexes(cache, defaults, i)
    ensures Indexes(cache[Key(defaults[i]) := i], defaults, i + 1)
  {
    assert KeyAt(defaults, i, Key(defaults[i]));
  }

  /** What an override writes at its key's place. */
  function Mark(value: string): string {
    if '=' in value then value else ""
  }

  lemma OverrideSlot(cache: map<string, int>, defaults: seq<string>, overrides: seq<string>, value: string, i: nat)
    requires Indexes(cache, defaults, |defaults|) && i < |defaults|
    ensures Slot(defaults, overrides + [value], i)
         == if Key(value) in cache && cache[Key(value)] == i then Mark(value) else Slot(defaults, overrides, i)
  {
    assert (overrides + [value])[..|overrides|] == overrides;
    assert KeyAt(defaults, i, Key(defaults[i]));
    assert Key(defaults[i]) in cache;
  }

  lemma OverrideSlots(cache: map<string, int>, defaults: seq<string>, overrides: seq<string>, value: string)
    requires Indexes(cache, defaults, |defaults|)
    ensures Key(value) in cache ==>
              && 0 <= cache[Key(value)] < |defaults|
              && Slots(defaults, overrides + [value]) == Slots(defaults, overrides)[cache[Key(value)] := Mark(value)]
    ensures Key(value) !in cache ==> Slots(defaults, overrides + [value]) == Slots(defaults, overrides)
  {
    forall i: nat | i < |defaults| {
      OverrideSlot(cache, defaults, overrides, value, i);
    }
  }

  lemma OverrideAdded(defaults: seq<string>, overrides: seq<string>, value: string)
    ensures Added(defaults, overrides + [value])
         == Added(defaults, overrides) + (if '=' in value && !HasKey(defaults, Key(value)) then [value] else [])
  {
    assert (overrides + [value])[..|overrides|] == overrides;
  }

  lemma CompactSkips(env: seq<string>, i: nat)
    requires i < |env| && env[i] == ""
    ensures Compact(env[..i] + env[i + 1..]) == Compact(env)
  {
    assert env == env[..i] + ([env[i]] + env[i + 1..]);
    assert ([env[i]] + env[i + 1..])[1..] == env[i + 1..];
    CompactConcat(env[..i], [env[i]] + env[i + 1..]);
    CompactConcat(env[..i], env[i + 1..]);
  }

  /** Deleting entries one by one in place leaves exactly the non-empty ones, in order. */
  method DropEmpty(entries: seq<string>) returns (env: seq<string>)
    ensures env == Compact(entries)
  {
    env := entries;
    var i := 0;
    while i < |env|
      invariant 0 <= i <= |env| && "" !in env[..i]
      invariant Compact(env) == Compact(entries)
      decreases |env| - i
    {
      if env[i] == "" {
        CompactSkips(env, i);
        env := env[..i] + env[i + 1..];
        i := i - 1;
      }
      i := i + 1;
    }
    assert env[..|env|] == env;
    CompactKeepsNonEmpty(env);
  }

  method IndexKeys(defaults: seq<string>) returns (cache: map<string, int>)
    ensures Indexes(cache, defaults, |defaults|)
  {
    cache := map[];
    for i := 0 to |defaults|
      invariant Indexes(cache, defaults, i)
    {
      IndexesOneMore(cache, defaults, i);
      cache := cache[Key(defaults[i]) := i];
    }
  }

  /** The list midway: the marked defaults, then the new entries. */
  function Midway(defaults: seq<string>, overrides: seq<string>): seq<string> {
    Slots(defaults, overrides) + Added(defaults, overrides)
  }

  lemma UpdateLeft(a: seq<string>, b: seq<string>, i: nat, x: string)
    requires i < |a|
    ensures (a + b)[i := x] == a[i := x] + b
  {}

  /** What one override does to the list. */
  lemma MidwayStep(cache: map<string, int>, defaults: seq<string>, done: seq<string>, value: string)
    requires Indexes(cache, defaults, |defaults|)
    ensures Key(value) in cache ==>
              && 0 <= cache[Key(value)] < |defaults| <= |Midway(defaults, done)|
              && Midway(defaults, done + [value]) == Midway(defaults, done)[cache[Key(value)] := Mark(value)]
    ensures Key(value) !in cache ==>
              Midway(defaults, done + [value]) == Midway(defaults, done) + (if '=' in value then [value] else [])
  {
    OverrideSlots(cache, defaults, done, value);
    OverrideAdded(defaults, done, value);
    if Key(value) in cache {
      UpdateLeft(Slots(defaults, done), Added(defaults, done), cache[Key(value)], Mark(value));
    }
  }

  method ApplyOverride(defaults: seq<string>, ghost done: seq<string>, cache: map<string, int>, env: seq<string>, value: string)
    returns (next: seq<string>)
    requires Indexes(cache, defaults, |defaults|) && env == Midway(defaults, done)
    ensures next == Midway(defaults, done + [value])
  {
    MidwayStep(cache, defaults, done, value);
    next := env;
    if '=' !in value {
      if value in cache {
        next := env[cache[value] := ""];
      }
    } else if Key(value) in cache {
      next := env[cache[Key(value)] := value];
    } else {
      next := env + [value];
    }
  }

  method ApplyOverrides(defaults: seq<string>, overrides: seq<string>, cache: map<string, int>) returns (env: seq<string>)
    requires Indexes(cache, defaults, |defaults|)
    ensures env == Midway(defaults, overrides)
  {
    env := defaults;
    assert Slots(defaults, []) == defaults;
    for j := 0 to |overrides|
      invariant env == Midway(defaults, overrides[..j])
    {
      assert overrides[..j + 1] == overrides[..j] + [overrides[j]];
      env := ApplyOverride(defaults, overrides[..j], cache, env, overrides[j]);
    }
    assert overrides[..|overrides|] == overrides;
  }

  lemma CompactMarked(defaults: seq<string>, overrides: seq<string>)
    ensures Compact(Midway(defaults, overrides)) == Overridden(defaults, overrides)
  {
    AddedIsNonEmpty(defaults, overrides);
    CompactKeepsNonEmpty(Added(defaults, overrides));
    CompactConcat(Slots(defaults, overrides), Added(defaults, overrides));
  }

  /** The source slices each default at its "=", so every default must have one. */
  method ReplaceOrAppendEnvValues(defaults: seq<string>, overrides: seq<string>) returns (env: seq<string>)
    requires forall e | e in defaults :: '=' in e
    ensures env == Overridden(defaults, overrides)
  {
    var cache := IndexKeys(defaults);
    env := ApplyOverrides(defaults, overrides, cache);
    env := DropEmpty(env);
    CompactMarked(defaults, overrides);
  }

  // ---------------------------------------------------------------------------------------------
  // As an update of a map
  // ---------------------------------------------------------------------------------------------

  predicate DistinctKeys(entries: seq<string>) {
    forall i, j | 0 <= i < j < |entries| :: Key(entries[i]) != Key(entries[j])
  }

  lemma {:induction false} InCompact(entries: seq<string>, e: string)
    ensures e in Compact(entries) <==> e in entries && e != ""
  {
    if entries != [] {
      InCompact(entries[1..], e);
      assert entries == [entries[0]] + entries[1..];
    }
  }

  lemma {:induction false} InAdded(defaults: seq<string>, overrides: seq<string>, e: string)
    ensures e in Added(defaults, overrides) <==> e in overrides && '=' in e && !HasKey(defaults, Key(e))
  {
    if overrides != [] {
      var n := |overrides| - 1;
      InAdded(defaults, overrides[..n], e);
      assert overrides == overrides[..n] + [overrides[n]];
    }
  }

  lemma {:induction false} LastSettingOfDistinct(overrides: seq<string>, e: string)
    requires DistinctKeys(overrides) && '=' in e
    ensures e in overrides <==> LastSetting(overrides, Key(e)) == Set(e)
  {
    if overrides != [] {
      var n := |overrides| - 1;
      LastSettingOfDistinct(overrides[..n], e);
      assert overrides == overrides[..n] + [overrides[n]];
      if Key(overrides[n]) == Key(e) && overrides[n] != e {
        assert e !in overrides[..n];
      }
    }
  }

  lemma {:induction false} SetHasEquals(overrides: seq<string>, key: string)
    ensures LastSetting(overrides, key).Set? ==>
              '=' in LastSetting(overrides, key).entry && Key(LastSetting(overrides, key).entry) == key
  {
    if overrides != [] {
      SetHasEquals(overrides[..|overrides| - 1], key);
    }
  }

  lemma SlotsHaveEquals(defaults: seq<string>, overrides: seq<string>, e: string)
    requires forall d | d in defaults :: '=' in d
    requires e in Slots(defaults, overrides) && e != ""
    ensures '=' in e
  {
    var i :| 0 <= i < |defaults| && Slot(defaults, overrides, i) == e;
    SetHasEquals(overrides, Key(defaults[i]));
    assert defaults[i] in defaults;
  }

  lemma SlotsHold(defaults: seq<string>, overrides: seq<string>, e: string)
    requires '=' in e && DistinctKeys(defaults)
    ensures e in Slots(defaults, overrides) <==>
              HasKey(defaults, Key(e)) && (LastSetting(overrides, Key(e)) == Set(e)
                || (e in defaults && LastSetting(overrides, Key(e)) == Untouched))
  {
    var slots := Slots(defaults, overrides);
    forall i | 0 <= i < |defaults|
      ensures !KeyWithin(defaults, i + 1, |defaults|, Key(defaults[i]))
    {}
    if e in slots {
      var i :| 0 <= i < |slots| && slots[i] == e;
      SetHasEquals(overrides, Key(defaults[i]));
      assert KeyAt(defaults, i, Key(e));
    }
    if i :| 0 <= i < |defaults| && KeyAt(defaults, i, Key(e)) {
      if LastSetting(overrides, Key(e)) == Set(e) {
        assert slots[i] == e;
      }
    }
    if e in defaults && LastSetting(overrides, Key(e)) == Untouched {
      var i :| 0 <= i < |defaults| && defaults[i] == e;
      assert KeyAt(defaults, i, Key(e)) && slots[i] == e;
    }
  }

  /** With distinct keys, an entry is in the result if it is set there, or if it is a default nobody touched. */
  lemma OverrideIsMapUpdate(defaults: seq<string>, overrides: seq<string>, e: string)
    requires forall d | d in defaults :: '=' in d
    requires DistinctKeys(defaults) && DistinctKeys(overrides)
    ensures e in Overridden(defaults, overrides) <==>
              '=' in e && (LastSetting(overrides, Key(e)) == Set(e)
                           || (e in defaults && LastSetting(overrides, Key(e)) == Untouched))
  {
    InCompact(Slots(defaults, overrides), e);
    InAdded(defaults, overrides, e);
    if '=' in e {
      LastSettingOfDistinct(overrides, e);
      if e in defaults {
        var i :| 0 <= i < |defaults| && defaults[i] == e;
        assert KeyAt(defaults, i, Key(e));
      }
      SlotsHold(defaults, overrides, e);
    } else {
      if e in Slots(defaults, overrides) && e != "" {
        SlotsHaveEquals(defaults, overrides, e);
      }
    }
  }

  lemma {:induction false} CompactDistinct(entries: seq<string>)
    requires forall i, j | 0 <= i < j < |entries| && entries[i] != "" && entries[j] != "" ::
               Key(entries[i]) != Key(entries[j])
    ensures DistinctKeys(Compact(entries))
  {
    if entries != [] {
      var tail := Compact(entries[1..]);
      CompactDistinct(entries[1..]);
      forall j | 0 <= j < |tail| && entries[0] != ""
        ensures Key(entries[0]) != Key(tail[j])
      {
        InCompact(entries[1..], tail[j]);
        var k :| 0 <= k < |entries[1..]| && entries[1..][k] == tail[j];
        assert entries[k + 1] == tail[j];
      }
    }
  }

  lemma {:induction false} AddedDistinct(defaults: seq<string>, overrides: seq<string>)
    requires DistinctKeys(overrides)
    ensures DistinctKeys(Added(defaults, overrides))
  {
    if overrides != [] {
      var n := |overrides| - 1;
      var front := Added(defaults, overrides[..n]);
      AddedDistinct(defaults, overrides[..n]);
      forall i | 0 <= i < |front|
        ensures Key(front[i]) != Key(overrides[n])
      {
        InAdded(defaults, overrides[..n], front[i]);
      }
    }
  }

  lemma SlotKey(defaults: seq<string>, overrides: seq<string>, i: nat)
    requires i < |defaults|
    ensures Slot(defaults, overrides, i) != "" ==> Key(Slot(defaults, overrides, i)) == Key(defaults[i])
  {
    SetHasEquals(overrides, Key(defaults[i]));
  }

  /** The result is again a list with one entry per key, so the statement above determines it up to order. */
  lemma ResultHasDistinctKeys(defaults: seq<string>, overrides: seq<string>)
    requires DistinctKeys(defaults) && DistinctKeys(overrides)
    ensures DistinctKeys(Overridden(defaults, overrides))
  {
    var slots, added := Slots(defaults, overrides), Added(defaults, overrides);
    forall i: nat | i < |defaults| { SlotKey(defaults, overrides, i); }
    CompactDistinct(slots);
    AddedDistinct(defaults, overrides);
    forall i, j | 0 <= i < |Compact(slots)| && 0 <= j < |added|
      ensures Key(Compact(slots)[i]) != Key(added[j])
    {
      InCompact(slots, Compact(slots)[i]);
      InAdded(defaults, overrides, added[j]);
      var k :| 0 <= k < |slots| && slots[k] == Compact(slots)[i];
      assert KeyAt(defaults, k, Key(slots[k]));
    }
  }
}
