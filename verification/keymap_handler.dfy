/**
 * The keymap registry.  Per view (a window, named case-insensitively) it keeps
 * the accelerator entries in order, a map from ref name to the key string the
 * user wrote ("CTRL+A/F5"), and the errors met while adding; across views it
 * keeps the redirect table of merged conflicts (new command -> the commands it
 * replaced).
 *
 * `Registry` and the functions over it state what each operation does; the
 * `KeymapHandler` class holds the same tables as fields and its methods are
 * proved to update them as those functions say.
 */
module Keymap {
  import opened Text
  import opened Options
  import opened KeyCatalog
  import opened Accelerator
  import opened Filter
  import opened MenuItemsStore
  import opened EntryFactory

  datatype Registry = Registry(
    entries: map<string, seq<Entry>>,
    keyMap: map<string, map<string, string>>,
    views: seq<string>,
    errors: map<string, map<string, string>>,
    refMap: map<int, seq<int>>)

  const Empty: Registry := Registry(map[], map[], [], map[], map[])

  /**
   * `views` lists the views of `keyMap` once each, in the order they were
   * created (the iteration order of the dictionary), and every view with a
   * key map also has an entry list.
   */
  ghost predicate Tidy(r: Registry) {
    && (forall v :: v in r.keyMap ==> v in r.entries)
    && (forall v :: v in r.keyMap <==> v in r.views)
    && (forall i, j :: 0 <= i < j < |r.views| ==> r.views[i] != r.views[j])
  }

  /** What `add` consults besides the tables: the key catalog, the filter's policy, the conflict callback and the raw key text of a trigger. */
  datatype Env = Env(
    catalog: Catalog,
    policy: Option<Policy>,
    permit: Option<seq<Entry> -> bool>,
    rawString: (set<Modifier>, int) -> string)

  // ---------------------------------------------------------------------------
  // Errors

  /** `add_error`: remember the whole key string under the view and the ref. */
  function RecordError(r: Registry, view: string, ref: string, key: string): (s: Registry)
    ensures view in s.errors && ref in s.errors[view] && s.errors[view][ref] == key
    ensures s.entries == r.entries && s.keyMap == r.keyMap && s.views == r.views && s.refMap == r.refMap
    ensures forall v :: v != view ==> (v in s.errors <==> v in r.errors)
    ensures forall v :: v != view && v in r.errors ==> s.errors[v] == r.errors[v]
    ensures view in r.errors ==> forall x :: x != ref && x in r.errors[view] ==> x in s.errors[view] && s.errors[view][x] == r.errors[view][x]
  {
    var m := if view in r.errors then r.errors[view] else map[];
    r.(errors := r.errors[view := m[ref := key]])
  }

  /** `get_error`: the view's errors, which are then cleared; an unknown view yields {} and creates nothing. */
  function TakeErrors(r: Registry, view: string): (res: (Registry, map<string, string>))
    ensures res.0.(errors := r.errors) == r
    ensures res.0.errors.Keys == r.errors.Keys
    ensures Upper(view) in r.errors ==> res.0.errors[Upper(view)] == map[] && res.1 == r.errors[Upper(view)]
  {
    var v := Upper(view);
    if v in r.errors then (r.(errors := r.errors[v := map[]]), r.errors[v]) else (r, map[])
  }

  /** Reading a view's errors empties them: a second read returns nothing, and only that view's errors change. */
  lemma ErrorsReadOnce(r: Registry, view: string)
    ensures var (s, first) := TakeErrors(r, view);
      && TakeErrors(s, view).1 == map[]
      && (Upper(view) in r.errors ==> first == r.errors[Upper(view)])
      && (Upper(view) !in r.errors ==> first == map[] && s == r)
      && s.errors.Keys == r.errors.Keys
      && (forall v :: v in r.errors && v != Upper(view) ==> s.errors[v] == r.errors[v])
      && s.(errors := r.errors) == r
  {
  }

  // ---------------------------------------------------------------------------
  // Prefixes (proof helpers about sequence prefixes; they model nothing of the source)

  /** A prefix one longer is the prefix and the next element. */
  lemma PrefixSnoc<T>(s: seq<T>, i: nat)
    requires i < |s|
    ensures s[..i + 1] == s[..i] + [s[i]]
  {
  }

  /** The whole-length prefix is the sequence itself. */
  lemma PrefixAll<T>(s: seq<T>)
    ensures s[..|s|] == s
  {
  }

  // ---------------------------------------------------------------------------
  // Conflicts

  /** The entries of `s` that fire on the same keys as `e`, in order. */
  function Matching(s: seq<Entry>, e: Entry): (m: seq<Entry>)
    ensures |m| <= |s|
    decreases |s|
  {
    if s == [] then []
    else (if SameTrigger(s[0], e) then [s[0]] else []) + Matching(s[1..], e)
  }

  /** The matches are exactly the entries of `s` with the trigger of `e`. */
  lemma {:induction false} MatchingMembers(s: seq<Entry>, e: Entry)
    ensures forall x :: x in Matching(s, e) <==> x in s && SameTrigger(x, e)
    decreases |s|
  {
    if s != [] {
      MatchingMembers(s[1..], e);
      assert s == [s[0]] + s[1..];
    }
  }

  /** The entries of `s` that do not fire on the keys of `e`, in order. */
  function Others(s: seq<Entry>, e: Entry): seq<Entry>
    decreases |s|
  {
    if s == [] then []
    else (if SameTrigger(s[0], e) then [] else [s[0]]) + Others(s[1..], e)
  }

  lemma {:induction false} MatchingConcat(s: seq<Entry>, t: seq<Entry>, e: Entry)
    ensures Matching(s + t, e) == Matching(s, e) + Matching(t, e)
    ensures Others(s + t, e) == Others(s, e) + Others(t, e)
    decreases |s|
  {
    if s != [] {
      assert (s + t)[1..] == s[1..] + t;
      MatchingConcat(s[1..], t, e);
    } else {
      assert s + t == t;
    }
  }

  /** Entries with the same trigger select the same entries. */
  lemma {:induction false} MatchingRespectsTrigger(s: seq<Entry>, e: Entry, f: Entry)
    requires SameTrigger(e, f)
    ensures Matching(s, e) == Matching(s, f)
    ensures Others(s, e) == Others(s, f)
    decreases |s|
  {
    if s != [] {
      MatchingRespectsTrigger(s[1..], e, f);
    }
  }

  /** A sequence whose every entry has the trigger of `e` is all match and no others. */
  lemma {:induction false} AllMatching(s: seq<Entry>, e: Entry)
    requires forall i :: 0 <= i < |s| ==> SameTrigger(s[i], e)
    ensures Matching(s, e) == s && Others(s, e) == []
    decreases |s|
  {
    if s != [] {
      AllMatching(s[1..], e);
      assert [s[0]] + s[1..] == s;
    }
  }

  /** `list.remove(x)`: drop the first element equal to `x`, equality being the trigger comparison. */
  function RemoveFirstMatch(s: seq<Entry>, x: Entry): (t: seq<Entry>)
    ensures |t| == |s| - (if Matching(s, x) == [] then 0 else 1)
    decreases |s|
  {
    if s == [] then []
    else if SameTrigger(s[0], x) then s[1..]
    else [s[0]] + RemoveFirstMatch(s[1..], x)
  }

  /** Removing the first match drops exactly that match and keeps every other entry in order. */
  lemma {:induction false} RemoveFirstMatchEffect(s: seq<Entry>, x: Entry)
    requires Matching(s, x) != []
    ensures Matching(RemoveFirstMatch(s, x), x) == Matching(s, x)[1..]
    ensures Others(RemoveFirstMatch(s, x), x) == Others(s, x)
    decreases |s|
  {
    if !SameTrigger(s[0], x) {
      RemoveFirstMatchEffect(s[1..], x);
      assert ([s[0]] + RemoveFirstMatch(s[1..], x))[1..] == RemoveFirstMatch(s[1..], x);
    }
  }

  /** `n` calls of `list.remove(x)` in a row. */
  function RemoveN(s: seq<Entry>, x: Entry, n: nat): seq<Entry> {
    if n == 0 then s else RemoveFirstMatch(RemoveN(s, x, n - 1), x)
  }

  lemma {:induction false} RemoveNEffect(s: seq<Entry>, x: Entry, n: nat)
    requires n <= |Matching(s, x)|
    ensures Matching(RemoveN(s, x, n), x) == Matching(s, x)[n..]
    ensures Others(RemoveN(s, x, n), x) == Others(s, x)
  {
    if n > 0 {
      RemoveNEffect(s, x, n - 1);
      RemoveFirstMatchEffect(RemoveN(s, x, n - 1), x);
    }
  }

  /** The items re-created under the new command, with their own flags, key code and ref name. */
  function Rebind(items: seq<Entry>, newRef: int): (t: seq<Entry>)
    ensures |t| == |items|
    ensures forall i :: 0 <= i < |items| ==> t[i] == items[i].(command := newRef)
  {
    seq(|items|, i requires 0 <= i < |items| => Entry(items[i].flags, items[i].keyCode, newRef, items[i].refName))
  }

  /** The commands of the items, in order. */
  function Commands(items: seq<Entry>): (t: seq<int>)
    ensures |t| == |items|
    ensures forall i :: 0 <= i < |items| ==> t[i] == items[i].command
  {
    seq(|items|, i requires 0 <= i < |items| => items[i].command)
  }

  /** The command a merge of `items` is redirected to: the allocator's ref for "keymap_" and the raw key text. */
  function MergeRef(a: Alloc, rawString: (set<Modifier>, int) -> string, items: seq<Entry>): (r: (Alloc, int))
    requires |items| >= 1
    ensures var name := Upper("keymap_" + rawString(items[0].flags, items[0].keyCode));
      name in r.0.refs && r.0.refs[name] == r.1
  {
    Resolve(a, "keymap_" + rawString(items[0].flags, items[0].keyCode))
  }

  /**
   * `replace_original_ref`: remove `items[0]` from the view |items|-1 times,
   * re-append every item under the merge command, and record the items'
   * commands as that command's originals.
   */
  function Replace(r: Registry, a: Alloc, rawString: (set<Modifier>, int) -> string, view: string, items: seq<Entry>): (res: (Registry, Alloc))
    requires view in r.entries && |items| >= 1
    ensures res.0.keyMap == r.keyMap && res.0.views == r.views && res.0.errors == r.errors
    ensures res.0.entries.Keys == r.entries.Keys
    ensures forall v :: v != view && v in r.entries ==> res.0.entries[v] == r.entries[v]
    ensures res.0.refMap.Keys == r.refMap.Keys + {MergeRef(a, rawString, items).1}
  {
    var (b, newRef) := MergeRef(a, rawString, items);
    var kept := RemoveN(r.entries[view], items[0], |items| - 1);
    (r.(entries := r.entries[view := kept + Rebind(items, newRef)], refMap := r.refMap[newRef := Commands(items)]), b)
  }

  /**
   * The entry list after a merge: the colliding entries are gone, every item
   * is back under the merge command, and the other entries keep their order.
   */
  lemma MergedEntries(es: seq<Entry>, e: Entry, newRef: int)
    requires Matching(es, e) != []
    ensures var items := Matching(es, e) + [e];
      var merged := RemoveN(es, items[0], |items| - 1) + Rebind(items, newRef);
      Matching(merged, e) == Rebind(items, newRef) && Others(merged, e) == Others(es, e)
  {
    var items := Matching(es, e) + [e];
    var first := items[0];
    MatchingMembers(es, e);
    assert first in Matching(es, e);
    MatchingRespectsTrigger(es, first, e);
    var kept := RemoveN(es, first, |items| - 1);
    RemoveNEffect(es, first, |items| - 1);
    MatchingRespectsTrigger(kept, first, e);
    var rebound := Rebind(items, newRef);
    assert forall i :: 0 <= i < |rebound| ==> SameTrigger(rebound[i], e) by {
      forall i | 0 <= i < |rebound| ensures SameTrigger(rebound[i], e) {
        if i < |items| - 1 {
          assert items[i] in Matching(es, e);
        }
      }
    }
    AllMatching(rebound, e);
    MatchingConcat(kept, rebound, e);
  }

  /**
   * A permitted merge of the colliding entries and the new one: afterwards the
   * view holds exactly one entry per item with that trigger, all under the
   * merge command; the other entries keep their order; the redirect table maps
   * the merge command to the items' commands; other views are untouched.
   */
  lemma MergeRebindsAll(r: Registry, a: Alloc, rawString: (set<Modifier>, int) -> string, view: string, e: Entry)
    requires view in r.entries
    requires Matching(r.entries[view], e) != []
    ensures var items := Matching(r.entries[view], e) + [e];
      var (s, b) := Replace(r, a, rawString, view, items);
      var newRef := MergeRef(a, rawString, items).1;
      && Matching(s.entries[view], e) == Rebind(items, newRef)
      && (forall x :: x in Matching(s.entries[view], e) ==> x.command == newRef)
      && Others(s.entries[view], e) == Others(r.entries[view], e)
      && newRef in s.refMap && s.refMap[newRef] == Commands(items)
      && (forall v :: v != view && v in r.entries ==> s.entries[v] == r.entries[v])
      && s.entries.Keys == r.entries.Keys && s.keyMap == r.keyMap && s.errors == r.errors
  {
    var items := Matching(r.entries[view], e) + [e];
    var newRef := MergeRef(a, rawString, items).1;
    MergedEntries(r.entries[view], e, newRef);
    var s := Replace(r, a, rawString, view, items).0;
    assert s.entries[view] == RemoveN(r.entries[view], items[0], |items| - 1) + Rebind(items, newRef);
  }

  // ---------------------------------------------------------------------------
  // Adding one key

  /** `map[view][ref]` after binding one more alternative: appended after "/", or set. */
  function Bind(m: map<string, string>, ref: string, alt: string): (n: map<string, string>)
    ensures n.Keys == m.Keys + {ref}
    ensures forall x :: x in m && x != ref ==> n[x] == m[x]
  {
    if ref in m then m[ref := m[ref] + "/" + alt] else m[ref := alt]
  }

  /**
   * Placing the result `made` of building alternative `alt` of the key string
   * `key` in the (upper-cased) view, for the (upper-cased) ref: on failure
   * record an error; with no collision append the entry; with a collision the
   * callback permits, merge; otherwise record a conflict.  The key map is
   * updated whenever the alternative was placed.
   */
  function Place(r: Registry, a: Alloc, env: Env, view: string, ref: string, key: string, alt: string, made: Option<Entry>): (res: (Registry, Alloc))
    requires view in r.entries && view in r.keyMap
    ensures res.0.views == r.views && res.0.entries.Keys == r.entries.Keys && res.0.keyMap.Keys == r.keyMap.Keys
    ensures forall v :: v != view && v in r.entries ==> res.0.entries[v] == r.entries[v]
    ensures forall v :: v != view && v in r.keyMap ==> res.0.keyMap[v] == r.keyMap[v]
  {
    if made.None? then (RecordError(r, view, ref, key), a)
    else
      var entry := made.value;
      var matches := Matching(r.entries[view], entry);
      if matches == [] then
        (r.(entries := r.entries[view := r.entries[view] + [entry]],
            keyMap := r.keyMap[view := Bind(r.keyMap[view], ref, alt)]), a)
      else if env.permit.Some? && env.permit.value(matches + [entry]) then
        var (r2, a2) := Replace(r, a, env.rawString, view, matches + [entry]);
        (r2.(keyMap := r2.keyMap[view := Bind(r2.keyMap[view], ref, alt)]), a2)
      else (RecordError(r, view, ref, key), a)
  }

  /** One alternative of an `add`: build the entry, then place it. */
  function AddOne(r: Registry, a: Alloc, env: Env, view: string, ref: string, key: string, alt: string): (res: (Registry, Alloc))
    requires view in r.entries && view in r.keyMap
    ensures res.0.views == r.views && res.0.entries.Keys == r.entries.Keys && res.0.keyMap.Keys == r.keyMap.Keys
    ensures forall v :: v != view && v in r.entries ==> res.0.entries[v] == r.entries[v]
    ensures forall v :: v != view && v in r.keyMap ==> res.0.keyMap[v] == r.keyMap[v]
  {
    var (a1, made) := MakeEntrySpec(a, env.catalog, env.policy, ref, alt);
    Place(r, a1, env, view, ref, key, alt, made)
  }

  /** The alternatives, in order (a fold from the end, matching a loop over prefixes). */
  function AddAll(r: Registry, a: Alloc, env: Env, view: string, ref: string, key: string, alts: seq<string>): (res: (Registry, Alloc))
    requires view in r.entries && view in r.keyMap
    ensures res.0.views == r.views && res.0.entries.Keys == r.entries.Keys && res.0.keyMap.Keys == r.keyMap.Keys
    ensures forall v :: v != view && v in r.entries ==> res.0.entries[v] == r.entries[v]
    ensures forall v :: v != view && v in r.keyMap ==> res.0.keyMap[v] == r.keyMap[v]
    decreases |alts|
  {
    if alts == [] then (r, a)
    else
      var (r1, a1) := AddAll(r, a, env, view, ref, key, alts[..|alts| - 1]);
      AddOne(r1, a1, env, view, ref, key, alts[|alts| - 1])
  }

  /** One more alternative: the fold steps once more. */
  lemma AddAllSnoc(r: Registry, a: Alloc, env: Env, view: string, ref: string, key: string, alts: seq<string>, alt: string, longer: seq<string>)
    requires view in r.entries && view in r.keyMap
    requires longer == alts + [alt]
    ensures var (r1, a1) := AddAll(r, a, env, view, ref, key, alts);
      AddAll(r, a, env, view, ref, key, longer) == AddOne(r1, a1, env, view, ref, key, alt)
  {
    assert longer[..|alts|] == alts;
  }

  /** The tables after `add` has created the view, if it was new. */
  function WithView(r: Registry, view: string): (s: Registry)
    requires Tidy(r)
    ensures Tidy(s)
    ensures view in s.entries && view in s.keyMap
    ensures s.entries.Keys == r.entries.Keys + {view} && s.keyMap.Keys == r.keyMap.Keys + {view}
    ensures s.views == if view in r.keyMap then r.views else r.views + [view]
    ensures forall v :: v != view && v in r.entries ==> s.entries[v] == r.entries[v]
    ensures forall v :: v != view && v in r.keyMap ==> s.keyMap[v] == r.keyMap[v]
    ensures s.errors == r.errors && s.refMap == r.refMap
  {
    if view in r.keyMap then r
    else r.(entries := r.entries[view := []], keyMap := r.keyMap[view := map[]], views := r.views + [view])
  }

  /**
   * `add(identifier, ref, key)`: upper-case the view and the ref, create the
   * view on first sight, then add each "/"-separated alternative.  Only the
   * view's own tables change, and the registry stays tidy.
   */
  function AddSpec(r: Registry, a: Alloc, env: Env, view: string, ref: string, key: string): (res: (Registry, Alloc))
    requires Tidy(r)
    ensures Tidy(res.0)
    ensures Upper(view) in res.0.entries && Upper(view) in res.0.keyMap
    ensures res.0.entries.Keys == r.entries.Keys + {Upper(view)} && res.0.keyMap.Keys == r.keyMap.Keys + {Upper(view)}
    ensures res.0.views == if Upper(view) in r.keyMap then r.views else r.views + [Upper(view)]
    ensures forall v :: v != Upper(view) && v in r.entries ==> res.0.entries[v] == r.entries[v]
    ensures forall v :: v != Upper(view) && v in r.keyMap ==> res.0.keyMap[v] == r.keyMap[v]
  {
    var v := Upper(view);
    AddAll(WithView(r, v), a, env, v, Upper(ref), key, Split(key, '/'))
  }

  // ---------------------------------------------------------------------------
  // Properties of `add`

  /** The tables other than the errors. */
  predicate SameTables(r: Registry, s: Registry) {
    r.entries == s.entries && r.keyMap == s.keyMap && r.views == s.views && r.refMap == s.refMap
  }

  /** An alternative fails or not whatever the allocator's state: failure depends on the key, the catalog and the policy only. */
  lemma FailureIgnoresAllocator(a: Alloc, b: Alloc, c: Catalog, policy: Option<Policy>, ref: string, key: string)
    ensures MakeEntrySpec(a, c, policy, ref, key).1.None? <==> MakeEntrySpec(b, c, policy, ref, key).1.None?
  {
  }

  /** The recorded errors play no part in what `add` does to the other tables. */
  lemma PlaceIgnoresErrors(r: Registry, s: Registry, a: Alloc, env: Env, view: string, ref: string, key: string, alt: string, made: Option<Entry>)
    requires view in r.entries && view in r.keyMap
    requires SameTables(r, s)
    ensures SameTables(Place(r, a, env, view, ref, key, alt, made).0, Place(s, a, env, view, ref, key, alt, made).0)
    ensures Place(r, a, env, view, ref, key, alt, made).1 == Place(s, a, env, view, ref, key, alt, made).1
  {
    if made.Some? {
      var entry := made.value;
      var matches := Matching(r.entries[view], entry);
      if matches != [] && env.permit.Some? && env.permit.value(matches + [entry]) {
        var items := matches + [entry];
        var (r2, a2) := Replace(r, a, env.rawString, view, items);
        var (s2, b2) := Replace(s, a, env.rawString, view, items);
        assert SameTables(r2, s2);
      }
    }
  }

  lemma AddOneIgnoresErrors(r: Registry, s: Registry, a: Alloc, env: Env, view: string, ref: string, key: string, alt: string)
    requires view in r.entries && view in r.keyMap
    requires SameTables(r, s)
    ensures SameTables(AddOne(r, a, env, view, ref, key, alt).0, AddOne(s, a, env, view, ref, key, alt).0)
    ensures AddOne(r, a, env, view, ref, key, alt).1 == AddOne(s, a, env, view, ref, key, alt).1
  {
    var (a1, made) := MakeEntrySpec(a, env.catalog, env.policy, ref, alt);
    PlaceIgnoresErrors(r, s, a1, env, view, ref, key, alt, made);
  }

  lemma {:induction false} AddAllIgnoresErrors(r: Registry, s: Registry, a: Alloc, env: Env, view: string, ref: string, key: string, alts: seq<string>)
    requires view in r.entries && view in r.keyMap
    requires SameTables(r, s)
    ensures SameTables(AddAll(r, a, env, view, ref, key, alts).0, AddAll(s, a, env, view, ref, key, alts).0)
    ensures AddAll(r, a, env, view, ref, key, alts).1 == AddAll(s, a, env, view, ref, key, alts).1
    decreases |alts|
  {
    if alts != [] {
      var init := alts[..|alts| - 1];
      AddAllIgnoresErrors(r, s, a, env, view, ref, key, init);
      var (r1, a1) := AddAll(r, a, env, view, ref, key, init);
      var (s1, b1) := AddAll(s, a, env, view, ref, key, init);
      AddOneIgnoresErrors(r1, s1, a1, env, view, ref, key, alts[|alts| - 1]);
    }
  }

  /** An alternative that cannot be built records the whole key string as the error and changes nothing else. */
  lemma FailedAlternativeRecorded(r: Registry, a: Alloc, env: Env, view: string, ref: string, key: string, alt: string)
    requires view in r.entries && view in r.keyMap
    requires MakeEntrySpec(a, env.catalog, env.policy, ref, alt).1.None?
    ensures AddOne(r, a, env, view, ref, key, alt) == (RecordError(r, view, ref, key), a)
  {
    MakeEntryOutcome(a, env.catalog, env.policy, ref, alt);
  }

  /** The error a failed last alternative records, and the tables as if it had not been written. */
  lemma FailedLastAlternative(r: Registry, a: Alloc, env: Env, view: string, ref: string, key: string, alts: seq<string>)
    requires view in r.entries && view in r.keyMap
    requires |alts| > 0
    requires MakeEntrySpec(a, env.catalog, env.policy, ref, alts[|alts| - 1]).1.None?
    ensures Isolated(r, a, env, view, ref, key, alts, alts[..|alts| - 1] + alts[|alts|..])
  {
    var n := |alts| - 1;
    assert alts[..n] + alts[n + 1..] == alts[..n];
    var (r1, a1) := AddAll(r, a, env, view, ref, key, alts[..n]);
    FailureIgnoresAllocator(a, a1, env.catalog, env.policy, ref, alts[n]);
    FailedAlternativeRecorded(r1, a1, env, view, ref, key, alts[n]);
  }

  /** Adding `alts` and adding `without` give the same tables and allocator, and `alts` records the error. */
  predicate Isolated(r: Registry, a: Alloc, env: Env, view: string, ref: string, key: string, alts: seq<string>, without: seq<string>)
    requires view in r.entries && view in r.keyMap
  {
    var res := AddAll(r, a, env, view, ref, key, alts);
    var other := AddAll(r, a, env, view, ref, key, without);
    && SameTables(res.0, other.0) && res.1 == other.1
    && view in res.0.errors && ref in res.0.errors[view] && res.0.errors[view][ref] == key
  }

  /** One more alternative on both sides keeps the two runs alike and the error recorded. */
  lemma IsolatedSnoc(r: Registry, a: Alloc, env: Env, view: string, ref: string, key: string,
                     alts: seq<string>, without: seq<string>, alt: string, longer: seq<string>, longerWithout: seq<string>)
    requires view in r.entries && view in r.keyMap
    requires Isolated(r, a, env, view, ref, key, alts, without)
    requires longer == alts + [alt] && longerWithout == without + [alt]
    ensures Isolated(r, a, env, view, ref, key, longer, longerWithout)
  {
    assert longer[..|alts|] == alts && longer[|alts|] == alt;
    assert longerWithout[..|without|] == without && longerWithout[|without|] == alt;
    var (r1, a1) := AddAll(r, a, env, view, ref, key, alts);
    var (s1, b1) := AddAll(r, a, env, view, ref, key, without);
    AddOneIgnoresErrors(r1, s1, a1, env, view, ref, key, alt);
    AddOneKeepsError(r1, a1, env, view, ref, key, alt);
  }

  /** Proof helper: alternative `i` dropped from a sequence of strings that goes on after it. */
  lemma DropBeforeLast(alts: seq<string>, i: nat)
    requires i < |alts| - 1
    ensures var init := alts[..|alts| - 1];
      && alts == init + [alts[|alts| - 1]]
      && alts[..i] + alts[i + 1..] == (init[..i] + init[i + 1..]) + [alts[|alts| - 1]]
  {
  }

  /**
   * Error isolation: an alternative that cannot be built only records the
   * error.  Every table but the errors, and the allocator, end up as if that
   * alternative had not been written, and the error stays recorded.
   */
  lemma {:induction false} FailedAlternativeIsolated(r: Registry, a: Alloc, env: Env, view: string, ref: string, key: string, alts: seq<string>, i: nat)
    requires view in r.entries && view in r.keyMap
    requires i < |alts|
    requires MakeEntrySpec(a, env.catalog, env.policy, ref, alts[i]).1.None?
    ensures Isolated(r, a, env, view, ref, key, alts, alts[..i] + alts[i + 1..])
    decreases |alts|
  {
    if i == |alts| - 1 {
      FailedLastAlternative(r, a, env, view, ref, key, alts);
    } else {
      var init := alts[..|alts| - 1];
      var rest := init[..i] + init[i + 1..];
      assert init[i] == alts[i];
      FailedAlternativeIsolated(r, a, env, view, ref, key, init, i);
      DropBeforeLast(alts, i);
      IsolatedSnoc(r, a, env, view, ref, key, init, rest, alts[|alts| - 1], alts, alts[..i] + alts[i + 1..]);
    }
  }

  /** Whatever happens to an alternative, an error already recorded for the view and the ref stays. */
  lemma AddOneKeepsError(r: Registry, a: Alloc, env: Env, view: string, ref: string, key: string, alt: string)
    requires view in r.entries && view in r.keyMap
    requires view in r.errors && ref in r.errors[view] && r.errors[view][ref] == key
    ensures var s := AddOne(r, a, env, view, ref, key, alt).0;
      view in s.errors && ref in s.errors[view] && s.errors[view][ref] == key
  {
    var (a1, made) := MakeEntrySpec(a, env.catalog, env.policy, ref, alt);
    if made.Some? {
      var entry := made.value;
      var matches := Matching(r.entries[view], entry);
      if matches != [] && env.permit.Some? && env.permit.value(matches + [entry]) {
        var (r2, a2) := Replace(r, a1, env.rawString, view, matches + [entry]);
        assert r2.errors == r.errors;
      }
    }
  }

  /** A collision the callback does not permit records a conflict and leaves every other table as it was. */
  lemma RejectedConflictKeepsTables(r: Registry, a: Alloc, env: Env, view: string, ref: string, key: string, alt: string)
    requires view in r.entries && view in r.keyMap
    requires var made := MakeEntrySpec(a, env.catalog, env.policy, ref, alt).1;
      && made.Some?
      && Matching(r.entries[view], made.value) != []
      && !(env.permit.Some? && env.permit.value(Matching(r.entries[view], made.value) + [made.value]))
    ensures var s := AddOne(r, a, env, view, ref, key, alt).0;
      && SameTables(s, r)
      && s.errors[view][ref] == key
  {
  }

  /**
   * An alternative that collides with nothing is appended to the view's
   * entries, and the ref's key string gains the alternative as written.
   */
  lemma FreshBindingAppends(r: Registry, a: Alloc, env: Env, view: string, ref: string, key: string, alt: string)
    requires view in r.entries && view in r.keyMap
    requires var made := MakeEntrySpec(a, env.catalog, env.policy, ref, alt).1;
      made.Some? && Matching(r.entries[view], made.value) == []
    ensures var (b, made) := MakeEntrySpec(a, env.catalog, env.policy, ref, alt);
      var (s, c) := AddOne(r, a, env, view, ref, key, alt);
      && s.entries[view] == r.entries[view] + [made.value]
      && s.keyMap[view][ref] == (if ref in r.keyMap[view] then r.keyMap[view][ref] + "/" + alt else alt)
      && s.refMap == r.refMap && s.errors == r.errors && c == b
  {
  }

  /** A permitted collision merges, and the key map is still updated for the ref. */
  lemma PermittedConflictMerges(r: Registry, a: Alloc, env: Env, view: string, ref: string, key: string, alt: string)
    requires view in r.entries && view in r.keyMap
    requires var made := MakeEntrySpec(a, env.catalog, env.policy, ref, alt).1;
      && made.Some?
      && Matching(r.entries[view], made.value) != []
      && env.permit.Some? && env.permit.value(Matching(r.entries[view], made.value) + [made.value])
    ensures var (b, made) := MakeEntrySpec(a, env.catalog, env.policy, ref, alt);
      var items := Matching(r.entries[view], made.value) + [made.value];
      var (s, c) := AddOne(r, a, env, view, ref, key, alt);
      var newRef := MergeRef(b, env.rawString, items).1;
      && |Matching(s.entries[view], made.value)| == |items|
      && (forall x :: x in Matching(s.entries[view], made.value) ==> x.command == newRef)
      && Others(s.entries[view], made.value) == Others(r.entries[view], made.value)
      && s.refMap[newRef] == Commands(items)
      && s.keyMap[view][ref] == (if ref in r.keyMap[view] then r.keyMap[view][ref] + "/" + alt else alt)
  {
    var (b, made) := MakeEntrySpec(a, env.catalog, env.policy, ref, alt);
    MergeRebindsAll(r, b, env.rawString, view, made.value);
  }

  /** No entry list has two entries with the same trigger. */
  ghost predicate TriggersUnique(r: Registry) {
    forall v :: v in r.entries ==> forall i, j :: 0 <= i < j < |r.entries[v]| ==> !SameTrigger(r.entries[v][i], r.entries[v][j])
  }

  /** Placing an entry without a conflict callback appends it only when nothing collides. */
  lemma PlaceKeepsTriggersUnique(r: Registry, a: Alloc, env: Env, view: string, ref: string, key: string, alt: string, made: Option<Entry>)
    requires view in r.entries && view in r.keyMap
    requires env.permit.None? && TriggersUnique(r)
    ensures TriggersUnique(Place(r, a, env, view, ref, key, alt, made).0)
  {
    if made.Some? && Matching(r.entries[view], made.value) == [] {
      var es := r.entries[view];
      MatchingMembers(es, made.value);
      var s := Place(r, a, env, view, ref, key, alt, made).0;
      assert s.entries[view] == es + [made.value];
      assert forall i :: 0 <= i < |es| ==> !SameTrigger(es[i], made.value) by {
        forall i | 0 <= i < |es| ensures !SameTrigger(es[i], made.value) {
          assert es[i] in es;
        }
      }
    }
  }

  lemma {:induction false} AddAllKeepsTriggersUnique(r: Registry, a: Alloc, env: Env, view: string, ref: string, key: string, alts: seq<string>)
    requires view in r.entries && view in r.keyMap
    requires env.permit.None? && TriggersUnique(r)
    ensures TriggersUnique(AddAll(r, a, env, view, ref, key, alts).0)
    decreases |alts|
  {
    if alts != [] {
      var init := alts[..|alts| - 1];
      AddAllKeepsTriggersUnique(r, a, env, view, ref, key, init);
      var (r1, a1) := AddAll(r, a, env, view, ref, key, init);
      var alt := alts[|alts| - 1];
      var (a2, made) := MakeEntrySpec(a1, env.catalog, env.policy, ref, alt);
      PlaceKeepsTriggersUnique(r1, a2, env, view, ref, key, alt, made);
    }
  }

  /** Without a conflict callback, `add` never lets two entries of a view share a trigger. */
  lemma NoPermitKeepsTriggersUnique(r: Registry, a: Alloc, env: Env, view: string, ref: string, key: string)
    requires Tidy(r) && env.permit.None? && TriggersUnique(r)
    ensures TriggersUnique(AddSpec(r, a, env, view, ref, key).0)
  {
    var v := Upper(view);
    AddAllKeepsTriggersUnique(WithView(r, v), a, env, v, Upper(ref), key, Split(key, '/'));
  }

  // ---------------------------------------------------------------------------
  // Key strings

  /** The key string of the first view, in creation order, that binds `ref`. */
  function FirstMapping(keyMap: map<string, map<string, string>>, views: seq<string>, ref: string): (s: Option<string>)
    ensures s.None? <==> forall i :: 0 <= i < |views| ==> !(views[i] in keyMap && ref in keyMap[views[i]])
    decreases |views|
  {
    if views == [] then None
    else if views[0] in keyMap && ref in keyMap[views[0]] then Some(keyMap[views[0]][ref])
    else FirstMapping(keyMap, views[1..], ref)
  }

  /** The first view that binds the ref is the one whose string is returned. */
  lemma {:induction false} FirstMappingAt(keyMap: map<string, map<string, string>>, views: seq<string>, ref: string, i: nat)
    requires i < |views| && views[i] in keyMap && ref in keyMap[views[i]]
    requires forall j :: 0 <= j < i ==> !(views[j] in keyMap && ref in keyMap[views[j]])
    ensures FirstMapping(keyMap, views, ref) == Some(keyMap[views[i]][ref])
    decreases i
  {
    if i > 0 {
      FirstMappingAt(keyMap, views[1..], ref, i - 1);
    }
  }

  /** `get_key_string`: the view's own binding of the ref, else the first view binding it, else None. */
  function KeyStringOf(r: Registry, view: string, ref: string): (s: Option<string>)
    ensures var v, f := Upper(view), Upper(ref);
      v in r.keyMap && f in r.keyMap[v] ==> s == Some(r.keyMap[v][f])
    ensures var v, f := Upper(view), Upper(ref);
      s.None? <==> !(v in r.keyMap && f in r.keyMap[v]) && forall i :: 0 <= i < |r.views| ==> !(r.views[i] in r.keyMap && f in r.keyMap[r.views[i]])
  {
    var v, f := Upper(view), Upper(ref);
    if v in r.keyMap && f in r.keyMap[v] then Some(r.keyMap[v][f]) else FirstMapping(r.keyMap, r.views, f)
  }

  /**
   * Round trip of `add` and `get_key_string`: a single alternative that is
   * built and collides with nothing can be read back, appended after "/" to
   * what the ref had in that view.
   */
  lemma AddThenKeyString(r: Registry, a: Alloc, env: Env, view: string, ref: string, key: string)
    requires Tidy(r)
    requires '/' !in key
    requires var made := MakeEntrySpec(a, env.catalog, env.policy, Upper(ref), key).1;
      made.Some? && Matching(WithView(r, Upper(view)).entries[Upper(view)], made.value) == []
    ensures var s := AddSpec(r, a, env, view, ref, key).0;
      var v, f := Upper(view), Upper(ref);
      KeyStringOf(s, view, ref) ==
        Some(if v in r.keyMap && f in r.keyMap[v] then r.keyMap[v][f] + "/" + key else key)
  {
    var v, f := Upper(view), Upper(ref);
    var r0 := WithView(r, v);
    SplitNoSeparator(key, '/');
    SingleAlternative(r0, a, env, v, f, key, Split(key, '/'));
    FreshBindingAppends(r0, a, env, v, f, key, key);
  }

  /** A key string without "/" is added as its one alternative. */
  lemma SingleAlternative(r: Registry, a: Alloc, env: Env, view: string, ref: string, key: string, alts: seq<string>)
    requires view in r.entries && view in r.keyMap
    requires alts == [key]
    ensures AddAll(r, a, env, view, ref, key, alts) == AddOne(r, a, env, view, ref, key, key)
  {
    assert alts[..0] == [];
  }

  // ---------------------------------------------------------------------------
  // The filter's last error

  /** The filter's last error after the alternatives of one key string. */
  function FilterErrorAfterAlts(env: Env, alts: seq<string>, prev: FilterError): (e: FilterError)
    ensures env.policy.None? ==> e == prev
    decreases |alts|
  {
    if alts == [] then prev
    else FilterErrorAfter(env.catalog, env.policy, alts[|alts| - 1], FilterErrorAfterAlts(env, alts[..|alts| - 1], prev))
  }

  lemma FilterErrorAfterAltsSnoc(env: Env, alts: seq<string>, alt: string, longer: seq<string>, prev: FilterError)
    requires longer == alts + [alt]
    ensures FilterErrorAfterAlts(env, longer, prev) == FilterErrorAfter(env.catalog, env.policy, alt, FilterErrorAfterAlts(env, alts, prev))
  {
    assert longer[..|alts|] == alts;
  }

  /**
   * The filter's last error is the one `check` left for the last alternative
   * that reached it; when none did, it is the error from before.
   */
  lemma {:induction false} FilterErrorFromLastParsed(env: Env, alts: seq<string>, prev: FilterError, i: nat)
    requires env.policy.Some?
    requires i <= |alts|
    requires forall j :: i <= j < |alts| ==> !ParseKey(Upper(alts[j]), ModifierTable(WindowsAllowed(env.policy)), env.catalog.codes).Parsed?
    ensures FilterErrorAfterAlts(env, alts, prev) == FilterErrorAfterAlts(env, alts[..i], prev)
    decreases |alts|
  {
    if i < |alts| {
      var init := alts[..|alts| - 1];
      assert init[..i] == alts[..i];
      FilterErrorFromLastParsed(env, init, prev, i);
    } else {
      assert alts[..i] == alts;
    }
  }

  // ---------------------------------------------------------------------------
  // Loading sections

  /** One section of a key map: its name as written and its (ref, key string) items in order. */
  datatype Section = Section(name: string, items: seq<(string, string)>)

  /**
   * With a list of section names, a section is read only when its upper-cased
   * name is listed; without one, a section whose raw name contains HOTKEY is skipped.
   */
  predicate Skipped(name: string, only: seq<string>): (b: bool)
    ensures |only| == 0 ==> (b <==> exists i :: 0 <= i <= |name| - 6 && StartsAt(name, "HOTKEY", i))
  {
    ContainsAt(name, "HOTKEY");
    (|only| > 0 && Upper(name) !in only) || (|only| == 0 && Contains(name, "HOTKEY"))
  }

  /** The items of one section, in order; empty key strings are ignored. */
  function AddItems(r: Registry, a: Alloc, env: Env, name: string, items: seq<(string, string)>): (res: (Registry, Alloc))
    requires Tidy(r)
    ensures Tidy(res.0)
    ensures res.0.entries.Keys <= r.entries.Keys + {Upper(name)}
    ensures forall v :: v != Upper(name) && v in r.entries ==> v in res.0.entries && res.0.entries[v] == r.entries[v]
    ensures forall v :: v != Upper(name) && v in r.keyMap ==> v in res.0.keyMap && res.0.keyMap[v] == r.keyMap[v]
    ensures forall v :: v != Upper(name) ==> (v in res.0.keyMap <==> v in r.keyMap)
    decreases |items|
  {
    if items == [] then (r, a)
    else
      var (r1, a1) := AddItems(r, a, env, name, items[..|items| - 1]);
      var (ref, key) := items[|items| - 1];
      if key == "" then (r1, a1) else AddSpec(r1, a1, env, name, ref, key)
  }

  /** One section of `add_dict`: skipped, or its raw name's entry list reset and its items added. */
  function AddSection(r: Registry, a: Alloc, env: Env, section: Section, only: seq<string>): (res: (Registry, Alloc))
    requires Tidy(r)
    ensures Tidy(res.0)
  {
    if Skipped(section.name, only) then (r, a)
    else AddItems(r.(entries := r.entries[section.name := []]), a, env, section.name, section.items)
  }

  /** `add_dict`: the sections in order. */
  function AddDictSpec(r: Registry, a: Alloc, env: Env, sections: seq<Section>, only: seq<string>): (res: (Registry, Alloc))
    requires Tidy(r)
    ensures Tidy(res.0)
    decreases |sections|
  {
    if sections == [] then (r, a)
    else
      var (r1, a1) := AddDictSpec(r, a, env, sections[..|sections| - 1], only);
      AddSection(r1, a1, env, sections[|sections| - 1], only)
  }

  /** The filter's last error after the items of one section (empty key strings are not added). */
  function FilterErrorAfterItems(env: Env, items: seq<(string, string)>, prev: FilterError): (e: FilterError)
    ensures env.policy.None? ==> e == prev
    decreases |items|
  {
    if items == [] then prev
    else
      var e := FilterErrorAfterItems(env, items[..|items| - 1], prev);
      var key := items[|items| - 1].1;
      if key == "" then e else FilterErrorAfterAlts(env, Split(key, '/'), e)
  }

  /** The filter's last error after `add_dict`. */
  function FilterErrorAfterSections(env: Env, sections: seq<Section>, only: seq<string>, prev: FilterError): (e: FilterError)
    ensures env.policy.None? ==> e == prev
    decreases |sections|
  {
    if sections == [] then prev
    else
      var e := FilterErrorAfterSections(env, sections[..|sections| - 1], only, prev);
      var section := sections[|sections| - 1];
      if Skipped(section.name, only) then e else FilterErrorAfterItems(env, section.items, e)
  }

  /** A read section touches the entry lists of its raw and its upper-cased name only. */
  predicate Touches(sections: seq<Section>, only: seq<string>, v: string) {
    exists i :: 0 <= i < |sections| && !Skipped(sections[i].name, only) && (v == sections[i].name || v == Upper(sections[i].name))
  }

  /** Views that no read section names keep their entries and key strings. */
  lemma {:induction false} OnlyReadSectionsChange(r: Registry, a: Alloc, env: Env, sections: seq<Section>, only: seq<string>, v: string)
    requires Tidy(r)
    requires !Touches(sections, only, v)
    ensures var s := AddDictSpec(r, a, env, sections, only).0;
      && (v in s.entries <==> v in r.entries) && (v in r.entries ==> s.entries[v] == r.entries[v])
      && (v in s.keyMap <==> v in r.keyMap) && (v in r.keyMap ==> s.keyMap[v] == r.keyMap[v])
    decreases |sections|
  {
    if sections != [] {
      var init := sections[..|sections| - 1];
      assert !Touches(init, only, v) by {
      }
      OnlyReadSectionsChange(r, a, env, init, only, v);
      var last := sections[|sections| - 1];
      if !Skipped(last.name, only) {
        assert v != last.name && v != Upper(last.name);
      }
    }
  }

  /**
   * A read section whose raw name is not already upper case ends with an
   * empty entry list under that raw name: `add` files its entries under the
   * upper-cased name.
   */
  lemma RawSectionNameEmptied(r: Registry, a: Alloc, env: Env, section: Section, only: seq<string>)
    requires Tidy(r)
    requires !Skipped(section.name, only) && Upper(section.name) != section.name
    ensures var s := AddSection(r, a, env, section, only).0;
      section.name in s.entries && s.entries[section.name] == []
  {
  }

  /** A skipped section changes nothing. */
  lemma SkippedSectionIgnored(r: Registry, a: Alloc, env: Env, section: Section, only: seq<string>)
    requires Tidy(r) && Skipped(section.name, only)
    ensures AddSection(r, a, env, section, only) == (r, a)
  {
  }

  // ---------------------------------------------------------------------------
  // The handler object

  class KeymapHandler {
    var entries: map<string, seq<Entry>>
    var keyMap: map<string, map<string, string>>
    var views: seq<string>
    var errors: map<string, map<string, string>>
    var refMap: map<int, seq<int>>
    const filter: KeyFilter?
    const permitConflict: Option<seq<Entry> -> bool>
    const rawString: (set<Modifier>, int) -> string
    const catalog: Catalog
    const store: RefStore

    function Tables(): Registry
      reads this
    {
      Registry(entries, keyMap, views, errors, refMap)
    }

    function Environment(): Env
      reads this, filter
    {
      Env(catalog, if filter == null then None else Some(filter.Current()), permitConflict, rawString)
    }

    ghost predicate Valid()
      reads this
    {
      Tidy(Tables())
    }

    /** The handler starts empty and then reads the initial sections, if any, as `add_dict` without a section list does. */
    constructor (catalog: Catalog, filter: KeyFilter?, permitConflict: Option<seq<Entry> -> bool>,
                 rawString: (set<Modifier>, int) -> string, store: RefStore, initial: seq<Section>)
      modifies store, filter
      ensures this.catalog == catalog && this.filter == filter && this.store == store
      ensures this.permitConflict == permitConflict && this.rawString == rawString
      ensures Valid()
      ensures (Tables(), store.State()) == AddDictSpec(Empty, old(store.State()), Environment(), initial, [])
      ensures filter != null ==> filter.Current() == old(filter.Current())
      ensures filter != null ==> filter.errorString == FilterErrorAfterSections(Environment(), initial, [], old(filter.errorString))
    {
      this.catalog := catalog;
      this.filter := filter;
      this.permitConflict := permitConflict;
      this.rawString := rawString;
      this.store := store;
      entries := map[];
      keyMap := map[];
      views := [];
      errors := map[];
      refMap := map[];
      new;
      AddDict(initial, []);
    }

    /** `add_error` */
    method AddError(view: string, ref: string, key: string)
      modifies this
      ensures Tables() == RecordError(old(Tables()), view, ref, key)
    {
      var m := if view in errors then errors[view] else map[];
      errors := errors[view := m[ref := key]];
    }

    /** `get_error` */
    method GetError(view: string) returns (m: map<string, string>)
      modifies this
      ensures (Tables(), m) == TakeErrors(old(Tables()), view)
    {
      var v := Upper(view);
      if v !in errors {
        return map[];
      }
      m := errors[v];
      errors := errors[v := map[]];
    }

    /** `replace_original_ref` */
    method ReplaceOriginalRef(items: seq<Entry>, view: string)
      requires view in entries && |items| >= 1
      requires |Matching(entries[view], items[0])| >= |items| - 1
      modifies this, store
      ensures (Tables(), store.State()) == Replace(old(Tables()), old(store.State()), rawString, view, items)
      ensures old(store.Valid()) ==> store.Valid()
    {
      ghost var r := Tables();
      var newRef := store.GetRef("keymap_" + rawString(items[0].flags, items[0].keyCode));
      assert (store.State(), newRef) == MergeRef(old(store.State()), rawString, items);
      refMap := refMap[newRef := []];
      RemoveRepeatedly(view, items[0], |items| - 1);
      Reappend(view, items, newRef);
      ghost var kept := RemoveN(r.entries[view], items[0], |items| - 1);
      assert entries == r.entries[view := kept + Rebind(items, newRef)];
      assert [] + Commands(items) == Commands(items);
      assert refMap == r.refMap[newRef := Commands(items)];
    }

    /** The first loop of `replace_original_ref`: `n` removals of `x` from the view's entries. */
    method RemoveRepeatedly(view: string, x: Entry, n: nat)
      requires view in entries
      modifies this`entries
      ensures entries == old(entries)[view := RemoveN(old(entries)[view], x, n)]
    {
      for i := 0 to n
        invariant entries == old(entries)[view := RemoveN(old(entries)[view], x, i)]
      {
        entries := entries[view := RemoveFirstMatch(entries[view], x)];
      }
    }

    /** The second loop of `replace_original_ref`: every item re-added under `newRef`, its command recorded. */
    method Reappend(view: string, items: seq<Entry>, newRef: int)
      requires view in entries && newRef in refMap
      modifies this`entries, this`refMap
      ensures entries == old(entries)[view := old(entries)[view] + Rebind(items, newRef)]
      ensures refMap == old(refMap)[newRef := old(refMap)[newRef] + Commands(items)]
    {
      ghost var es := entries[view];
      ghost var cs := refMap[newRef];
      assert Rebind(items[..0], newRef) == [] && Commands(items[..0]) == [];
      assert es + [] == es && cs + [] == cs;
      for i := 0 to |items|
        invariant entries == old(entries)[view := es + Rebind(items[..i], newRef)]
        invariant refMap == old(refMap)[newRef := cs + Commands(items[..i])]
      {
        var item := items[i];
        PrefixSnoc(items, i);
        assert Rebind(items[..i + 1], newRef) == Rebind(items[..i], newRef) + [item.(command := newRef)];
        assert Commands(items[..i + 1]) == Commands(items[..i]) + [item.command];
        assert es + Rebind(items[..i + 1], newRef) == es + Rebind(items[..i], newRef) + [item.(command := newRef)];
        assert cs + Commands(items[..i + 1]) == cs + Commands(items[..i]) + [item.command];
        refMap := refMap[newRef := refMap[newRef] + [item.command]];
        entries := entries[view := entries[view] + [Entry(item.flags, item.keyCode, newRef, item.refName)]];
      }
      PrefixAll(items);
    }

    /** The loop of `add` that collects the entries of the view colliding with the new one. */
    static method Colliding(es: seq<Entry>, entry: Entry) returns (checkList: seq<Entry>)
      ensures checkList == Matching(es, entry)
    {
      checkList := [];
      for j := 0 to |es|
        invariant checkList == Matching(es[..j], entry)
      {
        MatchingConcat(es[..j], [es[j]], entry);
        assert es[..j + 1] == es[..j] + [es[j]];
        if SameTrigger(es[j], entry) {
          checkList := checkList + [es[j]];
        }
      }
      assert es[..|es|] == es;
    }

    /** The body of the loop of `add` once the entry for one alternative has been built (or not). */
    method PlaceEntry(v: string, f: string, key: string, alt: string, made: Option<Entry>)
      requires v in entries && v in keyMap
      modifies this, store
      ensures (Tables(), store.State()) == Place(old(Tables()), old(store.State()), old(Environment()), v, f, key, alt, made)
    {
      if made.None? {
        AddError(v, f, key);
        return;
      }
      var entry := made.value;
      var checkList := Colliding(entries[v], entry);
      var placed := true;
      if checkList != [] {
        checkList := checkList + [entry];
        if permitConflict.Some? && permitConflict.value(checkList) {
          MatchingMembers(entries[v], entry);
          assert checkList[0] in Matching(entries[v], entry);
          MatchingRespectsTrigger(entries[v], entry, checkList[0]);
          ReplaceOriginalRef(checkList, v);
          placed := false;
        } else {
          AddError(v, f, key);
          return;
        }
      }
      var m := keyMap[v];
      if f in m {
        m := m[f := m[f] + "/" + alt];
      } else {
        m := m[f := alt];
      }
      keyMap := keyMap[v := m];
      if placed {
        entries := entries[v := entries[v] + [entry]];
      }
    }

    /** One pass of the loop of `add`: build the entry for `alt`, then place it. */
    method AddAlternative(v: string, f: string, key: string, alt: string)
      requires v in entries && v in keyMap
      modifies this, store, filter
      ensures (Tables(), store.State()) == AddOne(old(Tables()), old(store.State()), old(Environment()), v, f, key, alt)
      ensures filter != null ==> filter.Current() == old(filter.Current())
      ensures filter != null ==> filter.errorString == FilterErrorAfter(catalog, old(Environment()).policy, alt, old(filter.errorString))
    {
      ghost var env := Environment();
      var made := MakeEntry(f, alt, filter, catalog, store);
      assert Environment() == env;
      PlaceEntry(v, f, key, alt, made);
    }

    /** `add`: one key string, possibly several "/"-separated alternatives, for a ref in a view. */
    method Add(view: string, ref: string, key: string)
      requires Valid()
      modifies this, store, filter
      ensures Valid()
      ensures (Tables(), store.State()) == AddSpec(old(Tables()), old(store.State()), old(Environment()), view, ref, key)
      ensures filter != null ==> filter.Current() == old(filter.Current())
      ensures filter != null ==> filter.errorString == FilterErrorAfterAlts(old(Environment()), Split(key, '/'), old(filter.errorString))
    {
      var v := Upper(view);
      OpenView(v);
      AddAlternatives(v, Upper(ref), key, Split(key, '/'));
    }

    /** The start of `add`: a view seen for the first time gets an empty entry list and key map. */
    method OpenView(v: string)
      requires Valid()
      modifies this
      ensures Tables() == WithView(old(Tables()), v)
    {
      if v !in keyMap {
        entries := entries[v := []];
        keyMap := keyMap[v := map[]];
        views := views + [v];
      }
    }

    /** The loop of `add` over the alternatives. */
    method AddAlternatives(v: string, f: string, key: string, alts: seq<string>)
      requires v in entries && v in keyMap
      modifies this, store, filter
      ensures (Tables(), store.State()) == AddAll(old(Tables()), old(store.State()), old(Environment()), v, f, key, alts)
      ensures filter != null ==> filter.Current() == old(filter.Current())
      ensures filter != null ==> filter.errorString == FilterErrorAfterAlts(old(Environment()), alts, old(filter.errorString))
    {
      ghost var env := Environment();
      ghost var r0 := Tables();
      ghost var a0 := store.State();
      ghost var e0 := if filter == null then NoError else filter.errorString;
      for i := 0 to |alts|
        invariant (Tables(), store.State()) == AddAll(r0, a0, env, v, f, key, alts[..i])
        invariant env == Environment()
        invariant filter != null ==> filter.errorString == FilterErrorAfterAlts(env, alts[..i], e0)
      {
        PrefixSnoc(alts, i);
        AddAllSnoc(r0, a0, env, v, f, key, alts[..i], alts[i], alts[..i + 1]);
        FilterErrorAfterAltsSnoc(env, alts[..i], alts[i], alts[..i + 1], e0);
        AddAlternative(v, f, key, alts[i]);
      }
      PrefixAll(alts);
    }

    /** `get_key_string`: the view's own binding, else a search of the views in creation order. */
    method GetKeyString(view: string, ref: string) returns (s: Option<string>)
      ensures s == KeyStringOf(Tables(), view, ref)
    {
      var f := Upper(ref);
      var v := Upper(view);
      if v in keyMap && f in keyMap[v] {
        return Some(keyMap[v][f]);
      }
      for i := 0 to |views|
        invariant forall j :: 0 <= j < i ==> !(views[j] in keyMap && f in keyMap[views[j]])
      {
        if views[i] in keyMap && f in keyMap[views[i]] {
          FirstMappingAt(keyMap, views, f, i);
          return Some(keyMap[views[i]][f]);
        }
      }
      return None;
    }

    /** `is_ref_hit`: the command is a merge command, exactly when its originals can be read. */
    function IsRefHit(ref: int): (hit: bool)
      reads this
      ensures hit <==> GetOriginalRefs(ref).Some?
    {
      ref in refMap
    }

    /** `get_original_refs`; None where the source raises a KeyError. */
    function GetOriginalRefs(ref: int): (originals: Option<seq<int>>)
      reads this
      ensures originals.Some? <==> ref in refMap
      ensures originals.Some? ==> originals.value == refMap[ref]
    {
      if ref in refMap then Some(refMap[ref]) else None
    }

    /** `add_dict`: the section filter and the item loop. */
    method AddDict(sections: seq<Section>, only: seq<string>)
      requires Valid()
      modifies this, store, filter
      ensures Valid()
      ensures (Tables(), store.State()) == AddDictSpec(old(Tables()), old(store.State()), old(Environment()), sections, only)
      ensures filter != null ==> filter.Current() == old(filter.Current())
      ensures filter != null ==> filter.errorString == FilterErrorAfterSections(old(Environment()), sections, only, old(filter.errorString))
    {
      ghost var env := Environment();
      ghost var e0 := if filter == null then NoError else filter.errorString;
      for i := 0 to |sections|
        invariant Valid()
        invariant (Tables(), store.State()) == AddDictSpec(old(Tables()), old(store.State()), env, sections[..i], only)
        invariant env == Environment()
        invariant filter != null ==> filter.errorString == FilterErrorAfterSections(env, sections[..i], only, e0)
      {
        assert sections[..i + 1][..i] == sections[..i] && sections[..i + 1][i] == sections[i];
        ReadSection(sections[i], only);
      }
      assert sections[..|sections|] == sections;
    }

    /** One section of `add_dict`: skipped, or its raw name's entry list reset and its items added. */
    method ReadSection(section: Section, only: seq<string>)
      requires Valid()
      modifies this, store, filter
      ensures Valid()
      ensures (Tables(), store.State()) == AddSection(old(Tables()), old(store.State()), old(Environment()), section, only)
      ensures filter != null ==> filter.Current() == old(filter.Current())
      ensures filter != null ==>
        filter.errorString ==
          if Skipped(section.name, only) then old(filter.errorString)
          else FilterErrorAfterItems(old(Environment()), section.items, old(filter.errorString))
    {
      if Skipped(section.name, only) {
        return;
      }
      entries := entries[section.name := []];
      AddItemsOf(section.name, section.items);
    }

    /** The item loop of `add_dict`: every item with a non-empty key string is added. */
    method AddItemsOf(name: string, items: seq<(string, string)>)
      requires Valid()
      modifies this, store, filter
      ensures Valid()
      ensures (Tables(), store.State()) == AddItems(old(Tables()), old(store.State()), old(Environment()), name, items)
      ensures filter != null ==> filter.Current() == old(filter.Current())
      ensures filter != null ==> filter.errorString == FilterErrorAfterItems(old(Environment()), items, old(filter.errorString))
    {
      ghost var env := Environment();
      ghost var e0 := if filter == null then NoError else filter.errorString;
      for j := 0 to |items|
        invariant Valid()
        invariant (Tables(), store.State()) == AddItems(old(Tables()), old(store.State()), env, name, items[..j])
        invariant env == Environment()
        invariant filter != null ==> filter.errorString == FilterErrorAfterItems(env, items[..j], e0)
      {
        var (ref, key) := items[j];
        assert items[..j + 1][..j] == items[..j] && items[..j + 1][j] == (ref, key);
        if key != "" {
          Add(name, ref, key);
        }
      }
      assert items[..|items|] == items;
    }
  }
}
