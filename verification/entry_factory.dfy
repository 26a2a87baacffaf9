/**
 * The entry factory: turns one "+"-joined key combination such as "CTRL+SHIFT+A"
 * into an accelerator entry, or fails.  The steps, in order: upper-case the
 * text, detect modifiers by the substring `NAME+`, demand exactly one token
 * that is not a detected modifier, look the last token up in the key catalog,
 * consult the filter, and only then ask the allocator for the command number.
 */
module EntryFactory {
  import opened Text
  import opened Options
  import opened KeyCatalog
  import opened Accelerator
  import opened Filter
  import opened MenuItemsStore

  /** The name under which each modifier is written in a key string. */
  function ModifierName(m: Modifier): string {
    match m
    case Ctrl => "CTRL"
    case Alt => "ALT"
    case Shift => "SHIFT"
    case Win => "WINDOWS"
  }

  /** The modifier table, in its order; WINDOWS only when the filter allows it as a modifier. */
  function ModifierTable(windows: bool): seq<Modifier> {
    [Ctrl, Alt, Shift] + (if windows then [Win] else [])
  }

  /** `name + "+" in key` */
  predicate Detected(key: string, m: Modifier) {
    Contains(key, ModifierName(m) + "+")
  }

  /** The flag fold over the table: each detected modifier is added to the flags and counted. */
  function DetectModifiers(key: string, table: seq<Modifier>): (r: (set<Modifier>, nat))
    ensures r.1 <= |table|
    decreases |table|
  {
    if table == [] then ({}, 0)
    else
      var (flags, count) := DetectModifiers(key, table[..|table| - 1]);
      var m := table[|table| - 1];
      if Detected(key, m) then (flags + {m}, count + 1) else (flags, count)
  }

  /** The flags are the table's modifiers whose `NAME+` occurs in the key. */
  lemma {:induction false} DetectModifiersMembers(key: string, table: seq<Modifier>)
    ensures forall m :: m in DetectModifiers(key, table).0 <==> m in table && Detected(key, m)
    decreases |table|
  {
    if table != [] {
      var init := table[..|table| - 1];
      DetectModifiersMembers(key, init);
      assert table == init + [table[|table| - 1]];
    }
  }

  /** When the table names each modifier once, the count is the number of flags set. */
  lemma {:induction false} DetectModifiersCount(key: string, table: seq<Modifier>)
    requires forall i, j :: 0 <= i < j < |table| ==> table[i] != table[j]
    ensures DetectModifiers(key, table).1 == |DetectModifiers(key, table).0|
    decreases |table|
  {
    if table != [] {
      var init := table[..|table| - 1];
      var m := table[|table| - 1];
      assert forall i, j :: 0 <= i < j < |init| ==> init[i] != init[j] by {
        forall i, j | 0 <= i < j < |init| ensures init[i] != init[j] {
          assert init[i] == table[i] && init[j] == table[j];
        }
      }
      DetectModifiersCount(key, init);
      DetectModifiersMembers(key, init);
      assert m !in init by {
        forall k | 0 <= k < |init| ensures init[k] != m {
          assert init[k] == table[k];
        }
      }
    }
  }

  /** One more table entry: its modifier is added and counted exactly when detected. */
  lemma DetectStep(key: string, table: seq<Modifier>, i: nat)
    requires i < |table|
    ensures var (flags, count) := DetectModifiers(key, table[..i]);
      DetectModifiers(key, table[..i + 1]) == if Detected(key, table[i]) then (flags + {table[i]}, count + 1) else (flags, count)
  {
    assert table[..i + 1][..i] == table[..i];
  }

  /** The table holds each modifier once, so the count is the number of flags set. */
  lemma ModifierTableDistinct(windows: bool)
    ensures var t := ModifierTable(windows);
      forall i, j :: 0 <= i < j < |t| ==> t[i] != t[j]
  {
  }

  /** With the detected modifiers known, the fold yields them and their number. */
  lemma DetectedCount(key: string, windows: bool, flags: set<Modifier>)
    requires forall m :: Detected(key, m) <==> m in flags
    requires Win in flags ==> windows
    ensures DetectModifiers(key, ModifierTable(windows)) == (flags, |flags|)
  {
    var t := ModifierTable(windows);
    ModifierTableDistinct(windows);
    ModifierTableMembers(windows);
    DetectModifiersMembers(key, t);
    DetectModifiersCount(key, t);
    var r := DetectModifiers(key, t);
    assert r.0 == flags by {
      assert forall m :: m in r.0 <==> m in flags;
    }
  }

  lemma ModifierTableMembers(windows: bool)
    ensures forall m :: m in ModifierTable(windows) <==> m != Win || windows
  {
  }

  /** What the structural part of `make_entry` decides about an upper-cased key. */
  datatype ParseResult = InvalidPattern | UnknownKeyName(name: string) | Parsed(flags: set<Modifier>, code: int)

  function ParseKey(key: string, table: seq<Modifier>, codes: map<string, int>): (r: ParseResult)
    ensures var tokens := Split(key, '+');
      r.Parsed? <==> |tokens| == DetectModifiers(key, table).1 + 1 && tokens[|tokens| - 1] in codes
    ensures r.Parsed? ==> r.flags == DetectModifiers(key, table).0 && r.code == codes[Split(key, '+')[|Split(key, '+')| - 1]]
    ensures r.UnknownKeyName? ==> r.name !in codes
  {
    var (flags, count) := DetectModifiers(key, table);
    var tokens := Split(key, '+');
    if |tokens| - count != 1 then InvalidPattern
    else
      var last := tokens[|tokens| - 1];
      if last !in codes then UnknownKeyName(last) else Parsed(flags, codes[last])
  }

  /** WINDOWS is a modifier only when a filter is present and lists it among its modifier keys. */
  function WindowsAllowed(policy: Option<Policy>): bool {
    policy.Some? && "WINDOWS" in policy.value.modifierKeys
  }

  /**
   * `make_entry` as a function of the allocator's state and the filter's policy
   * (None when there is no filter): the new allocator state and the entry, if any.
   */
  function MakeEntrySpec(a: Alloc, c: Catalog, policy: Option<Policy>, ref: string, key: string): (r: (Alloc, Option<Entry>))
    ensures r.1.None? ==> r.0 == a
    ensures r.1.Some? ==> r.1.value.refName == Upper(ref) && r.0 == Resolve(a, Upper(ref)).0
  {
    var k := Upper(key);
    match ParseKey(k, ModifierTable(WindowsAllowed(policy)), c.codes)
    case Parsed(flags, code) =>
      if policy.Some? && CheckSpec(policy.value, k).answer != Accept then (a, None)
      else
        var (b, command) := Resolve(a, Upper(ref));
        (b, Some(Entry(flags, code, command, Upper(ref))))
    case _ => (a, None)
  }

  /**
   * Success is exactly: the structural and catalog checks pass and the filter,
   * when there is one, accepts.  A success carries the parsed flags and code,
   * the allocator's ref for the upper-cased ref name, and that name; a failure
   * leaves the allocator untouched.
   */
  lemma MakeEntryOutcome(a: Alloc, c: Catalog, policy: Option<Policy>, ref: string, key: string)
    ensures var (b, e) := MakeEntrySpec(a, c, policy, ref, key);
      var parse := ParseKey(Upper(key), ModifierTable(WindowsAllowed(policy)), c.codes);
      && (e.Some? <==> parse.Parsed? && (policy.None? || CheckSpec(policy.value, Upper(key)).answer == Accept))
      && (e.None? ==> b == a)
      && (e.Some? ==>
            && e.value.flags == parse.flags && e.value.keyCode == parse.code
            && e.value.refName == Upper(ref)
            && Upper(ref) in b.refs && b.refs[Upper(ref)] == e.value.command
            && b == Resolve(a, ref).0)
  {
    UpperIdempotent(ref);
  }

  /**
   * The filter's last error after `make_entry`: `check` runs, and writes it,
   * only for a key that passed the token-count and catalog checks.
   */
  function FilterErrorAfter(c: Catalog, policy: Option<Policy>, key: string, prev: FilterError): (e: FilterError)
    ensures policy.None? ==> e == prev
    ensures policy.Some? && !ParseKey(Upper(key), ModifierTable(WindowsAllowed(policy)), c.codes).Parsed? ==> e == prev
  {
    if policy.Some? && ParseKey(Upper(key), ModifierTable(WindowsAllowed(policy)), c.codes).Parsed?
    then CheckSpec(policy.value, Upper(key)).error
    else prev
  }

  /**
   * With a filter, a built entry leaves the filter's last error empty, and a key
   * that parsed but was not built leaves the filter's reason for refusing it.
   */
  lemma FilterErrorExplainsOutcome(a: Alloc, c: Catalog, p: Policy, ref: string, key: string, prev: FilterError)
    ensures MakeEntrySpec(a, c, Some(p), ref, key).1.Some? ==> FilterErrorAfter(c, Some(p), key, prev) == NoError
    ensures ParseKey(Upper(key), ModifierTable(WindowsAllowed(Some(p))), c.codes).Parsed? && MakeEntrySpec(a, c, Some(p), ref, key).1.None?
      ==> FilterErrorAfter(c, Some(p), key, prev) != NoError
  {
    DeadBranchesUnreachable(p, Upper(key));
  }

  /** The filter decides nothing when the structural or the catalog check already failed. */
  lemma FilterConsultedLast(a: Alloc, c: Catalog, p: Policy, q: Policy, ref: string, key: string)
    requires !ParseKey(Upper(key), ModifierTable(WindowsAllowed(Some(p))), c.codes).Parsed?
    ensures MakeEntrySpec(a, c, Some(p), ref, key) == (a, None)
    ensures WindowsAllowed(Some(p)) == WindowsAllowed(Some(q)) ==>
      MakeEntrySpec(a, c, Some(q), ref, key) == (a, None)
  {
  }

  /** Only the upper-cased key matters: keys that differ in letter case give the same result. */
  lemma KeyCaseIgnored(a: Alloc, c: Catalog, policy: Option<Policy>, ref: string, key1: string, key2: string)
    requires Upper(key1) == Upper(key2)
    ensures MakeEntrySpec(a, c, policy, ref, key1) == MakeEntrySpec(a, c, policy, ref, key2)
  {
  }

  /** The text each modifier is detected by. */
  lemma PatternTexts()
    ensures ModifierName(Ctrl) + "+" == "CTRL+" && ModifierName(Alt) + "+" == "ALT+"
    ensures ModifierName(Shift) + "+" == "SHIFT+" && ModifierName(Win) + "+" == "WINDOWS+"
  {
  }

  /** A modifier written after the key has no trailing "+", is not counted, and the key is refused. */
  lemma TrailingModifierRejected(key: string, windows: bool, codes: map<string, int>)
    requires key == "A+CTRL"
    ensures ParseKey(key, ModifierTable(windows), codes) == InvalidPattern
  {
    // every pattern ends in "+", and the only "+" of the key comes too early for any of them
    assert '+' !in key[3..];
    PatternTexts();
    Absent(key, "CTRL+", 4);
    Absent(key, "ALT+", 3);
    Absent(key, "SHIFT+", 5);
    Absent(key, "WINDOWS+", 7);
    assert forall m :: !Detected(key, m);
    DetectedCount(key, windows, {});
    SplitJoin(["A", "CTRL"], '+');
    assert Join(["A", "CTRL"], '+') == key;
  }

  /** A repeated modifier is counted once, so the remaining tokens are too many. */
  lemma RepeatedModifierRejected(key: string, windows: bool, codes: map<string, int>)
    requires key == "CTRL+CTRL+A"
    ensures ParseKey(key, ModifierTable(windows), codes) == InvalidPattern
  {
    assert forall m :: Detected(key, m) <==> m == Ctrl by {
      assert 'A' !in key[..8] && 'S' !in key && 'W' !in key;
      PatternTexts();
      assert "CTRL+" <= key;
      Absent(key, "ALT+", 0);
      Absent(key, "SHIFT+", 0);
      Absent(key, "WINDOWS+", 0);
    }
    assert |Split(key, '+')| == 3 by {
      SplitJoin(["CTRL", "CTRL", "A"], '+');
      assert Join(["CTRL", "CTRL", "A"], '+') == key;
    }
    DetectedCount(key, windows, {Ctrl});
  }

  /** Each detected modifier counts once and the last token is looked up. */
  lemma TwoModifiersParsed(key: string, windows: bool, codes: map<string, int>)
    requires key == "CTRL+SHIFT+A" && "A" in codes
    ensures ParseKey(key, ModifierTable(windows), codes) == Parsed({Ctrl, Shift}, codes["A"])
  {
    CtrlShiftDetected(key);
    CtrlShiftTokens(key);
    DetectedCount(key, windows, {Ctrl, Shift});
    assert |{Ctrl, Shift}| == 2;
  }

  lemma CtrlShiftDetected(key: string)
    requires key == "CTRL+SHIFT+A"
    ensures forall m :: Detected(key, m) <==> m == Ctrl || m == Shift
  {
    assert 'A' !in key[..9] && 'W' !in key;
    PatternTexts();
    assert "CTRL+" <= key;
    assert key[5..] == "SHIFT+A";
    Present(key, "SHIFT+", 5);
    Absent(key, "ALT+", 0);
    Absent(key, "WINDOWS+", 0);
  }

  lemma CtrlShiftTokens(key: string)
    requires key == "CTRL+SHIFT+A"
    ensures Split(key, '+') == ["CTRL", "SHIFT", "A"]
  {
    SplitJoin(["CTRL", "SHIFT", "A"], '+');
    assert Join(["CTRL", "SHIFT", "A"], '+') == key;
  }

  /**
   * `pattern` does not occur when its character at offset `j` is missing from
   * every place of the text where that character would have to sit.
   */
  lemma Absent(s: string, pattern: string, j: nat)
    requires j < |pattern|
    requires |s| < |pattern| || pattern[j] !in s[j..|s| - |pattern| + j + 1]
    ensures !Contains(s, pattern)
  {
    ContainsAt(s, pattern);
    forall i | 0 <= i <= |s| - |pattern| ensures !StartsAt(s, pattern, i) {
      assert s[j..|s| - |pattern| + j + 1][i] == s[i + j];
      assert s[i..i + |pattern|][j] == s[i + j];
    }
  }

  lemma Present(s: string, pattern: string, i: nat)
    requires i <= |s| && pattern <= s[i..]
    ensures Contains(s, pattern)
  {
    assert s[i..][..|pattern|] == s[i..i + |pattern|];
    assert StartsAt(s, pattern, i);
    ContainsAt(s, pattern);
  }

  /**
   * The entry factory against the key filter: when the filter accepts a key
   * whose token count matches the detected modifiers and whose categories all
   * come from the catalog, the catalog lookup succeeds as well.
   */
  lemma AcceptedKeyIsParsed(c: Catalog, p: Policy, key: string)
    requires CategoriesKnown(c)
    requires p.modifierKeys + p.functionKeys + p.enableKeys + p.noShiftEnableKeys <= c.codes.Keys
    requires CheckSpec(p, key).answer == Accept
    requires var k := Upper(key);
      |Split(k, '+')| - DetectModifiers(k, ModifierTable(WindowsAllowed(Some(p)))).1 == 1
    ensures ParseKey(Upper(key), ModifierTable(WindowsAllowed(Some(p))), c.codes).Parsed?
  {
    var k := Upper(key);
    UpperIdempotent(key);
    var tokens := Split(k, '+');
    assert Tokens(k) == tokens;
    assert CheckSpec(p, k) == CheckSpec(p, key);
    AcceptedTokensAreUsable(p, k);
    var last := tokens[|tokens| - 1];
    assert Classify(p, last) != Unusable;
  }

  /** Every token of an accepted key string is in one of the four category sets. */
  lemma AcceptedTokensAreUsable(p: Policy, keyString: string)
    requires CheckSpec(p, keyString).answer == Accept
    ensures forall i :: 0 <= i < |Tokens(keyString)| ==> Classify(p, Tokens(keyString)[i]) != Unusable
  {
  }

  /**
   * The structural part of `make_entry`: the flag loop over the modifier
   * table, the token count, and the catalog lookup of the last token.
   */
  method Parse(k: string, table: seq<Modifier>, codes: map<string, int>) returns (parse: ParseResult)
    ensures parse == ParseKey(k, table, codes)
  {
    var flags, flagCount := Modifiers(k, table);
    var codestr := Split(k, '+');
    if |codestr| - flagCount != 1 {
      return InvalidPattern;
    }
    var last := codestr[|codestr| - 1];
    if last !in codes {
      return UnknownKeyName(last);
    }
    return Parsed(flags, codes[last]);
  }

  /** The loop of `make_entry` over the modifier table: the flags found and how many. */
  method Modifiers(k: string, table: seq<Modifier>) returns (flags: set<Modifier>, flagCount: nat)
    ensures (flags, flagCount) == DetectModifiers(k, table)
  {
    flags, flagCount := {}, 0;
    for i := 0 to |table|
      invariant (flags, flagCount) == DetectModifiers(k, table[..i])
    {
      DetectStep(k, table, i);
      if Contains(k, ModifierName(table[i]) + "+") {
        flags := flags + {table[i]};
        flagCount := flagCount + 1;
      }
    }
    assert table[..|table|] == table;
  }

  /**
   * `make_entry`.  The filter's `Check` is the only call that writes to the
   * filter (its last error), and it is made only once the key parsed; the
   * allocator is asked for a ref only on success.
   */
  method MakeEntry(ref: string, key: string, filter: KeyFilter?, catalog: Catalog, store: RefStore)
    returns (entry: Option<Entry>)
    modifies store, filter
    ensures var policy := if filter == null then None else Some(old(filter.Current()));
      (store.State(), entry) == MakeEntrySpec(old(store.State()), catalog, policy, ref, key)
    ensures filter != null ==> filter.Current() == old(filter.Current())
    ensures filter != null ==> filter.errorString == FilterErrorAfter(catalog, Some(old(filter.Current())), key, old(filter.errorString))
    ensures old(store.Valid()) ==> store.Valid()
  {
    var k := Upper(key);
    var windows := filter != null && "WINDOWS" in filter.modifierKey;
    var parse := Parse(k, ModifierTable(windows), catalog.codes);
    if !parse.Parsed? {
      return None;
    }
    if filter != null {
      var answer := filter.Check(k);
      if answer != Accept {
        return None;
      }
    }
    var command := store.GetRef(Upper(ref));
    UpperIdempotent(ref);
    return Some(Entry(parse.flags, parse.code, command, Upper(ref)));
  }
}
