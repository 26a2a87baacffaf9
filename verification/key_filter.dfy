/**
 * The key filter: the policy that decides which key combinations may be bound.
 * Four category sets (modifier, function, enable, no-shift-enable keys), an
 * ordered list of reserved token sets, and the reason for the last rejection.
 *
 * `CheckSpec` is the validation cascade as a function of the policy and the
 * key string; the `KeyFilter` class holds the mutable sets and its `Check`
 * method runs the counting loop and is proved to compute `CheckSpec`.
 */
module Filter {
  import opened Text
  import opened Options
  import opened KeyCatalog

  /** The part of a filter that `Check` reads. */
  datatype Policy = Policy(
    modifierKeys: set<string>,
    functionKeys: set<string>,
    enableKeys: set<string>,
    noShiftEnableKeys: set<string>,
    disabled: seq<set<string>>)

  /** Why the last check failed; `NoError` is the empty error string. */
  datatype FilterError =
    | NoError
    | NoKeySpecified
    | UnusableKey(key: string)
    | ModifierOnlyPattern
    | ModifierRequired
    | MultipleNonModifier
    | NonShiftModifierRequired
    | ModifierOnlyCombination
    | Reserved

  /**
   * What `check` hands back: `True`, `False`, a bare `None` (one failure branch
   * returns without a value) or an exception (the "bug in the code" branch).
   */
  datatype Answer = Accept | Reject | ReturnNone | RaiseBug

  datatype Outcome = Outcome(answer: Answer, error: FilterError)

  /** How the loop of `check` classifies a token; the first matching set wins. */
  datatype Category = ModifierKey | FunctionKey | EnableKey | NoShiftEnableKey | Unusable

  /** The set an `add_*_key` call targets. */
  datatype Group = Modifiers | Functions | Enables | NoShiftEnables

  function Classify(p: Policy, key: string): Category {
    if key in p.modifierKeys then ModifierKey
    else if key in p.functionKeys then FunctionKey
    else if key in p.enableKeys then EnableKey
    else if key in p.noShiftEnableKeys then NoShiftEnableKey
    else Unusable
  }

  predicate IsNonModifier(c: Category) {
    c == FunctionKey || c == EnableKey || c == NoShiftEnableKey
  }

  /** The flags and counters of the classification loop. */
  datatype Tally = Tally(modFlg: bool, shiftFlg: bool, funcCount: nat, enableCount: nat, noShiftCount: nat)
  {
    function NonModifiers(): nat {
      funcCount + enableCount + noShiftCount
    }
  }

  const NoTally: Tally := Tally(false, false, 0, 0, 0)

  /** One iteration of the classification loop. */
  function Step(t: Tally, p: Policy, key: string): Tally {
    match Classify(p, key)
    case ModifierKey => if key == "SHIFT" then t.(shiftFlg := true) else t.(modFlg := true)
    case FunctionKey => t.(funcCount := t.funcCount + 1)
    case EnableKey => t.(enableCount := t.enableCount + 1)
    case NoShiftEnableKey => t.(noShiftCount := t.noShiftCount + 1)
    case Unusable => t
  }

  /** The loop's flags and counters after it has seen all of `keys`. */
  function TallyOf(p: Policy, keys: seq<string>): Tally
    decreases |keys|
  {
    if keys == [] then NoTally else Step(TallyOf(p, keys[..|keys| - 1]), p, keys[|keys| - 1])
  }

  /** The first token in none of the four sets, if any. */
  function FirstUnusable(p: Policy, keys: seq<string>): (r: Option<string>)
    ensures r.None? <==> forall i :: 0 <= i < |keys| ==> Classify(p, keys[i]) != Unusable
    ensures r.Some? ==> r.value in keys && Classify(p, r.value) == Unusable
    decreases |keys|
  {
    if keys == [] then None
    else
      var earlier := FirstUnusable(p, keys[..|keys| - 1]);
      if earlier.Some? then earlier
      else if Classify(p, keys[|keys| - 1]) == Unusable then Some(keys[|keys| - 1])
      else None
  }

  /** The tokens `check` works on: the upper-cased string split on "+". */
  function Tokens(keyString: string): seq<string> {
    Split(Upper(keyString), '+')
  }

  function TokenSet(keys: seq<string>): set<string> {
    set k | k in keys
  }

  /** The combination rules applied once every token is known (the part after the loop). */
  function Verdict(p: Policy, keys: seq<string>, t: Tally): (r: Outcome)
    ensures r.answer == Accept ==> r.error == NoError
    ensures r.answer == Reject ==> r.error != NoError
  {
    if |keys| == 1 then
      if t.funcCount > 0 then Outcome(Accept, NoError)
      else if t.modFlg || t.shiftFlg then Outcome(Reject, ModifierOnlyPattern)
      else Outcome(Reject, ModifierRequired)
    else if t.NonModifiers() > 1 then Outcome(Reject, MultipleNonModifier)
    else if !t.modFlg && !t.shiftFlg && t.funcCount == 0 then Outcome(ReturnNone, NonShiftModifierRequired)
    else if t.funcCount == 0 && t.noShiftCount == 0 && t.enableCount == 0 then Outcome(Reject, ModifierOnlyCombination)
    else if t.enableCount > 0 && !t.modFlg && !t.shiftFlg then Outcome(RaiseBug, NoError)
    else if t.noShiftCount > 0 && !t.modFlg then Outcome(Reject, NonShiftModifierRequired)
    else if TokenSet(keys) in p.disabled then Outcome(Reject, Reserved)
    else Outcome(Accept, NoError)
  }

  /**
   * The whole validation: what `check` returns and what it leaves as the last
   * error.  An acceptance clears the error and a rejection always names a reason.
   */
  function CheckSpec(p: Policy, keyString: string): (r: Outcome)
    ensures r.answer == Accept ==> r.error == NoError
    ensures r.answer == Reject ==> r.error != NoError
  {
    if keyString == "" then Outcome(Reject, NoKeySpecified)
    else
      var keys := Tokens(keyString);
      var unusable := FirstUnusable(p, keys);
      if unusable.Some? then Outcome(Reject, UnusableKey(unusable.value))
      else Verdict(p, keys, TallyOf(p, keys))
  }

  // ---------------------------------------------------------------------------
  // Properties of the validation

  /** The flags record which kinds of modifier were seen, the counters how many of each other kind. */
  lemma TallyMeaning(p: Policy, keys: seq<string>)
    ensures var t := TallyOf(p, keys);
      && (t.modFlg <==> exists i :: 0 <= i < |keys| && Classify(p, keys[i]) == ModifierKey && keys[i] != "SHIFT")
      && (t.shiftFlg <==> exists i :: 0 <= i < |keys| && Classify(p, keys[i]) == ModifierKey && keys[i] == "SHIFT")
      && (t.funcCount > 0 <==> exists i :: 0 <= i < |keys| && Classify(p, keys[i]) == FunctionKey)
      && (t.enableCount > 0 <==> exists i :: 0 <= i < |keys| && Classify(p, keys[i]) == EnableKey)
      && (t.noShiftCount > 0 <==> exists i :: 0 <= i < |keys| && Classify(p, keys[i]) == NoShiftEnableKey)
  {
    TallyFlags(p, keys);
    TallyCounters(p, keys);
  }

  lemma {:induction false} TallyFlags(p: Policy, keys: seq<string>)
    ensures var t := TallyOf(p, keys);
      && (t.modFlg <==> exists i :: 0 <= i < |keys| && Classify(p, keys[i]) == ModifierKey && keys[i] != "SHIFT")
      && (t.shiftFlg <==> exists i :: 0 <= i < |keys| && Classify(p, keys[i]) == ModifierKey && keys[i] == "SHIFT")
    decreases |keys|
  {
    if keys != [] {
      var init := keys[..|keys| - 1];
      TallyFlags(p, init);
      assert forall i :: 0 <= i < |init| ==> init[i] == keys[i];
    }
  }

  lemma {:induction false} TallyCounters(p: Policy, keys: seq<string>)
    ensures var t := TallyOf(p, keys);
      && (t.funcCount > 0 <==> exists i :: 0 <= i < |keys| && Classify(p, keys[i]) == FunctionKey)
      && (t.enableCount > 0 <==> exists i :: 0 <= i < |keys| && Classify(p, keys[i]) == EnableKey)
      && (t.noShiftCount > 0 <==> exists i :: 0 <= i < |keys| && Classify(p, keys[i]) == NoShiftEnableKey)
    decreases |keys|
  {
    if keys != [] {
      var init := keys[..|keys| - 1];
      TallyCounters(p, init);
      assert forall i :: 0 <= i < |init| ==> init[i] == keys[i];
    }
  }

  /** With no modifier seen and every token known, every token was counted as a non-modifier. */
  lemma {:induction false} TallyBalance(p: Policy, keys: seq<string>)
    requires FirstUnusable(p, keys).None?
    ensures var t := TallyOf(p, keys);
      !t.modFlg && !t.shiftFlg ==> t.NonModifiers() == |keys|
    decreases |keys|
  {
    if keys != [] {
      var init := keys[..|keys| - 1];
      assert forall i :: 0 <= i < |init| ==> init[i] == keys[i];
      TallyBalance(p, init);
    }
  }

  /** The branches returning `None` and raising the "bug" error can never be taken. */
  lemma DeadBranchesUnreachable(p: Policy, keyString: string)
    ensures CheckSpec(p, keyString).answer == Accept || CheckSpec(p, keyString).answer == Reject
  {
    if keyString != "" {
      var keys := Tokens(keyString);
      if FirstUnusable(p, keys).None? {
        TallyBalance(p, keys);
      }
    }
  }

  /** An empty key string is rejected with "no key specified". */
  lemma EmptyKeyRejected(p: Policy)
    ensures CheckSpec(p, "") == Outcome(Reject, NoKeySpecified)
  {
  }

  /** The first unknown token rejects the combination and is named in the error. */
  lemma FirstUnusableTokenRejected(p: Policy, keyString: string, i: nat)
    requires keyString != ""
    requires i < |Tokens(keyString)| && Classify(p, Tokens(keyString)[i]) == Unusable
    requires forall j :: 0 <= j < i ==> Classify(p, Tokens(keyString)[j]) != Unusable
    ensures CheckSpec(p, keyString) == Outcome(Reject, UnusableKey(Tokens(keyString)[i]))
  {
    FirstUnusableAt(p, Tokens(keyString), i);
  }

  /** The token reported is the first unknown one. */
  lemma {:induction false} FirstUnusableAt(p: Policy, keys: seq<string>, i: nat)
    requires i < |keys| && Classify(p, keys[i]) == Unusable
    requires forall j :: 0 <= j < i ==> Classify(p, keys[j]) != Unusable
    ensures FirstUnusable(p, keys) == Some(keys[i])
    decreases |keys|
  {
    var init := keys[..|keys| - 1];
    if i == |keys| - 1 {
      assert forall j :: 0 <= j < |init| ==> Classify(p, init[j]) != Unusable by {
        forall j | 0 <= j < |init| ensures Classify(p, init[j]) != Unusable {
          assert init[j] == keys[j];
        }
      }
    } else {
      assert forall j :: 0 <= j < i ==> Classify(p, init[j]) != Unusable by {
        forall j | 0 <= j < i ensures Classify(p, init[j]) != Unusable {
          assert init[j] == keys[j];
        }
      }
      assert init[i] == keys[i];
      FirstUnusableAt(p, init, i);
    }
  }

  /**
   * A single token passes exactly when it is a function key and not a modifier;
   * the reserved patterns play no part.
   */
  lemma SingleTokenRule(p: Policy, keyString: string, d: seq<set<string>>)
    requires keyString != "" && |Tokens(keyString)| == 1
    ensures var k := Tokens(keyString)[0];
      CheckSpec(p, keyString).answer == Accept <==> k !in p.modifierKeys && k in p.functionKeys
    ensures CheckSpec(p, keyString) == CheckSpec(p.(disabled := d), keyString)
  {
    var keys := Tokens(keyString);
    var q := p.(disabled := d);
    assert keys[..0] == [];
    assert TallyOf(p, keys) == Step(NoTally, p, keys[0]);
    assert TallyOf(q, keys) == Step(NoTally, q, keys[0]);
    assert FirstUnusable(p, keys) == (if Classify(p, keys[0]) == Unusable then Some(keys[0]) else None);
    assert FirstUnusable(q, keys) == (if Classify(q, keys[0]) == Unusable then Some(keys[0]) else None);
  }

  /** Several tokens need exactly one non-modifier among them. */
  lemma OneNonModifierRequired(p: Policy, keyString: string)
    requires keyString != "" && |Tokens(keyString)| > 1
    requires FirstUnusable(p, Tokens(keyString)).None?
    requires TallyOf(p, Tokens(keyString)).NonModifiers() != 1
    ensures CheckSpec(p, keyString).answer == Reject
  {
    TallyBalance(p, Tokens(keyString));
  }

  /** A no-shift-enable key with no modifier other than SHIFT is refused. */
  lemma NoShiftKeyNeedsOtherModifier(p: Policy, keyString: string)
    requires keyString != "" && |Tokens(keyString)| > 1
    requires FirstUnusable(p, Tokens(keyString)).None?
    requires TallyOf(p, Tokens(keyString)).NonModifiers() == 1
    requires exists i :: 0 <= i < |Tokens(keyString)| && Classify(p, Tokens(keyString)[i]) == NoShiftEnableKey
    requires !exists i :: 0 <= i < |Tokens(keyString)| && Classify(p, Tokens(keyString)[i]) == ModifierKey && Tokens(keyString)[i] != "SHIFT"
    ensures CheckSpec(p, keyString) == Outcome(Reject, NonShiftModifierRequired)
  {
    TallyMeaning(p, Tokens(keyString));
    TallyBalance(p, Tokens(keyString));
  }

  /** A multi-token combination whose token set is reserved is refused, in any token order. */
  lemma ReservedCombinationRejected(p: Policy, keyString: string)
    requires keyString != "" && |Tokens(keyString)| > 1
    requires TokenSet(Tokens(keyString)) in p.disabled
    ensures CheckSpec(p, keyString).answer == Reject
  {
    DeadBranchesUnreachable(p, keyString);
  }

  /**
   * One modifier plus one function, enable or no-shift-enable key, in either
   * order: accepted unless the pair is reserved, or a no-shift-enable key is
   * paired with SHIFT.
   */
  lemma ModifierPlusKey(p: Policy, keyString: string, m: string, k: string)
    requires Tokens(keyString) == [m, k] || Tokens(keyString) == [k, m]
    requires m in p.modifierKeys
    requires IsNonModifier(Classify(p, k))
    ensures CheckSpec(p, keyString).answer == Accept <==>
      {m, k} !in p.disabled && (Classify(p, k) == NoShiftEnableKey ==> m != "SHIFT")
  {
    var keys := Tokens(keyString);
    assert keys[..1][..0] == [];
    assert keys[..1] == [keys[0]];
    assert TallyOf(p, keys[..1]) == Step(NoTally, p, keys[0]);
    assert TallyOf(p, keys) == Step(Step(NoTally, p, keys[0]), p, keys[1]);
    assert FirstUnusable(p, keys).None?;
    assert TokenSet(keys) == {m, k};
  }

  // ---------------------------------------------------------------------------
  // State changes of the filter, as functions of the policy

  /** The four category sets by group. */
  function Members(p: Policy, g: Group): set<string> {
    match g
    case Modifiers => p.modifierKeys
    case Functions => p.functionKeys
    case Enables => p.enableKeys
    case NoShiftEnables => p.noShiftEnableKeys
  }

  /** `set(key)`: the set of one-character strings of `key`. */
  function CharSet(key: string): set<string> {
    set i | 0 <= i < |key| :: [key[i]]
  }

  /** `list.remove(x)` with `ValueError` ignored: drop the first element equal to `x`, if any. */
  function RemoveFirst(s: seq<set<string>>, x: set<string>): (r: seq<set<string>>)
    ensures x !in s ==> r == s
    ensures x in s ==> |r| == |s| - 1
    decreases |s|
  {
    if s == [] then []
    else if s[0] == x then s[1..]
    else [s[0]] + RemoveFirst(s[1..], x)
  }

  /** Removal takes out exactly the first occurrence and keeps the order of the rest. */
  lemma {:induction false} RemoveFirstAt(s: seq<set<string>>, x: set<string>, i: nat)
    requires i < |s| && s[i] == x
    requires forall j :: 0 <= j < i ==> s[j] != x
    ensures RemoveFirst(s, x) == s[..i] + s[i + 1..]
    decreases i
  {
    if i > 0 {
      RemoveFirstAt(s[1..], x, i - 1);
      assert s[1..][..i - 1] == s[1..i];
      assert s[1..][i..] == s[i + 1..];
      assert [s[0]] + s[1..i] == s[..i];
    }
  }

  function FirstIndex(s: seq<set<string>>, x: set<string>): (i: nat)
    requires x in s
    ensures i < |s| && s[i] == x && forall j :: 0 <= j < i ==> s[j] != x
  {
    if s[0] == x then 0 else 1 + FirstIndex(s[1..], x)
  }

  /** `_set_key_group` for a known upper-case `key`. */
  function Grouped(p: Policy, key: string, g: Group): Policy {
    var q := Policy(
      p.modifierKeys - {key},
      p.functionKeys - {key},
      p.enableKeys - {key},
      p.noShiftEnableKeys - {key},
      RemoveFirst(p.disabled, CharSet(key)));
    match g
    case Modifiers => q.(modifierKeys := q.modifierKeys + {key})
    case Functions => q.(functionKeys := q.functionKeys + {key})
    case Enables => q.(enableKeys := q.enableKeys + {key})
    case NoShiftEnables => q.(noShiftEnableKeys := q.noShiftEnableKeys + {key})
  }

  /** `_set_key_group` including its `ValueError` for a name outside the catalog. */
  function GroupStep(p: Policy, c: Catalog, key: string, g: Group): (r: (Policy, bool))
    ensures r.1 <==> Upper(key) in c.codes
    ensures !r.1 ==> r.0 == p
    ensures r.1 ==> Upper(key) in Members(r.0, g)
  {
    if Upper(key) in c.codes then (Grouped(p, Upper(key), g), true) else (p, false)
  }

  /** `add_*_key` over a list: each name in order, stopping at the first unknown one. */
  function GroupAll(p: Policy, c: Catalog, keys: seq<string>, g: Group): (r: (Policy, bool))
    ensures |r.0.disabled| <= |p.disabled|
    decreases |keys|
  {
    if keys == [] then (p, true)
    else
      var (q, ok) := GroupAll(p, c, keys[..|keys| - 1], g);
      if !ok then (q, false) else GroupStep(q, c, keys[|keys| - 1], g)
  }

  /** After grouping, the key sits in the target set only; other keys keep their sets. */
  lemma GroupedMembership(p: Policy, key: string, g: Group)
    ensures forall h :: key in Members(Grouped(p, key, g), h) <==> h == g
    ensures forall h, x :: x != key ==> (x in Members(Grouped(p, key, g), h) <==> x in Members(p, h))
  {
  }

  /** Grouping removes at most one reserved pattern: the first equal to the key's character set. */
  lemma GroupedDisabled(p: Policy, key: string, g: Group)
    ensures var d := Grouped(p, key, g).disabled;
      (CharSet(key) !in p.disabled ==> d == p.disabled)
      && (CharSet(key) in p.disabled ==> |d| == |p.disabled| - 1 && multiset(d) + multiset{CharSet(key)} == multiset(p.disabled))
  {
    var s := p.disabled;
    if CharSet(key) in s {
      var i := FirstIndex(s, CharSet(key));
      RemoveFirstAt(s, CharSet(key), i);
      RemoveAtMultiset(s, i);
    }
  }

  lemma RemoveAtMultiset(s: seq<set<string>>, i: nat)
    requires i < |s|
    ensures |s[..i] + s[i + 1..]| == |s| - 1
    ensures multiset(s[..i] + s[i + 1..]) + multiset{s[i]} == multiset(s)
  {
    assert s == s[..i] + [s[i]] + s[i + 1..];
  }

  /** After a successful list call every listed name (upper-cased) is in the target set only. */
  lemma {:induction false} GroupAllPlacesEveryKey(p: Policy, c: Catalog, keys: seq<string>, g: Group)
    ensures var (q, ok) := GroupAll(p, c, keys, g);
      ok ==> forall i, h :: 0 <= i < |keys| ==> (Upper(keys[i]) in Members(q, h) <==> h == g)
    ensures var (q, ok) := GroupAll(p, c, keys, g);
      ok <==> forall i :: 0 <= i < |keys| ==> Upper(keys[i]) in c.codes
    decreases |keys|
  {
    if keys != [] {
      var init := keys[..|keys| - 1];
      var last := keys[|keys| - 1];
      GroupAllPlacesEveryKey(p, c, init, g);
      var (q, ok) := GroupAll(p, c, init, g);
      assert forall i :: 0 <= i < |init| ==> init[i] == keys[i];
      if ok && Upper(last) in c.codes {
        GroupedMembership(q, Upper(last), g);
      }
    }
  }

  /** Every token, upper-cased, names a key of the catalog. */
  predicate KnownTokens(parts: seq<string>, c: Catalog) {
    forall i :: 0 <= i < |parts| ==> Upper(parts[i]) in c.codes
  }

  /** `add_disable_pattern`: every upper-cased token must be known; the raw tokens are stored. */
  function WithPattern(p: Policy, c: Catalog, patternString: string): (r: (Policy, bool))
    ensures r.0.(disabled := p.disabled) == p
    ensures |r.0.disabled| == |p.disabled| + (if r.1 then 1 else 0)
    ensures r.0.disabled[..|p.disabled|] == p.disabled
    ensures r.1 <==> KnownTokens(Split(patternString, '+'), c)
    ensures r.1 ==> r.0.disabled[|p.disabled|] == TokenSet(Split(patternString, '+'))
  {
    var parts := Split(patternString, '+');
    if KnownTokens(parts, c)
    then (p.(disabled := p.disabled + [TokenSet(parts)]), true)
    else (p, false)
  }

  /** The patterns reserved for the operating system, installed by the constructor. */
  const SystemPatterns: seq<set<string>> := [
    {"CTRL", "ESCAPE"},
    {"CTRL", "SHIFT", "ESCAPE"},
    {"CTRL", "WINDOWS", "RETURN"},
    {"ALT", "SHIFT", "PRINTSCREEN"},
    {"ALT", "ESCAPE"},
    {"ALT", "TAB"},
    {"ALT", "SHIFT", "TAB"},
    {"ALT", "ESCAPE"}]

  /** Text-editing shortcuts reserved when the view accepts character input. */
  const InputCharPatterns: seq<set<string>> := [
    {"CTRL", "INSERT"},
    {"SHIFT", "INSERT"},
    {"CTRL", "Z"},
    {"CTRL", "X"},
    {"CTRL", "C"},
    {"CTRL", "V"},
    {"CTRL", "A"},
    {"CTRL", "Y"},
    {"CTRL", "F7"},
    {"CTRL", "F10"}]

  /** Combinations a user may not take over (context menu, cancel, close, ...). */
  const UserPatterns: seq<set<string>> := [
    {"APPLICATIONS"},
    {"SHIFT", "F10"},
    {"F10"},
    {"ESCAPE"},
    {"ALT", "F4"},
    {"SPACE"},
    {"ALT", "SPACE"}]

  /** The key names the reserved patterns mention. */
  const SystemPatternNames: set<string> := {"CTRL", "SHIFT", "ALT", "WINDOWS", "ESCAPE", "RETURN", "PRINTSCREEN", "TAB"}
  const DefaultPatternNames: set<string> :=
    {"CTRL", "SHIFT", "ALT", "INSERT", "Z", "X", "C", "V", "A", "Y", "F7", "F10", "APPLICATIONS", "ESCAPE", "F4", "SPACE"}

  /** `set_default` as a function of the policy before the call. */
  function Defaulted(p: Policy, c: Catalog, supportInputChar: bool, isSystem: bool, arrowCharKey: bool): (q: Policy)
    ensures p.modifierKeys <= q.modifierKeys && p.functionKeys <= q.functionKeys
    ensures p.enableKeys <= q.enableKeys && p.noShiftEnableKeys <= q.noShiftEnableKeys
  {
    var functions := p.functionKeys + c.functionKeys + c.specialKeys;
    var functions := if supportInputChar then functions else functions + c.inputControlKeys;
    var functions := if isSystem then functions + c.standaloneKeys else functions;
    var enables := if supportInputChar then p.enableKeys + c.inputControlKeys else p.enableKeys;
    var enables := if isSystem then enables else enables + c.standaloneKeys;
    var disabled := if supportInputChar then p.disabled + InputCharPatterns else p.disabled;
    var disabled := if isSystem then disabled else disabled + UserPatterns;
    Policy(
      p.modifierKeys + {"CTRL"} + {"ALT"} + {"SHIFT"},
      if arrowCharKey then functions + c.characterKeys else functions,
      enables,
      if arrowCharKey then p.noShiftEnableKeys else p.noShiftEnableKeys + c.characterKeys,
      disabled)
  }

  /**
   * `set_default` keeps what was there, adds the three modifiers, appends ten
   * patterns for character input and seven for user configuration, and sends
   * character keys to the function set only when `arrowCharKey` holds.
   */
  lemma DefaultedShape(p: Policy, c: Catalog, supportInputChar: bool, isSystem: bool, arrowCharKey: bool)
    ensures var q := Defaulted(p, c, supportInputChar, isSystem, arrowCharKey);
      && {"CTRL", "ALT", "SHIFT"} <= q.modifierKeys
      && q.disabled[..|p.disabled|] == p.disabled
      && |q.disabled| == |p.disabled| + (if supportInputChar then 10 else 0) + (if isSystem then 0 else 7)
      && (arrowCharKey ==> c.characterKeys <= q.functionKeys)
      && (!arrowCharKey ==> c.characterKeys <= q.noShiftEnableKeys)
  {
  }

  // ---------------------------------------------------------------------------
  // The filter object

  class KeyFilter {
    /** The key catalog the filter validates names against. */
    const catalog: Catalog
    var errorString: FilterError
    var modifierKey: set<string>
    var functionKey: set<string>
    var enableKey: set<string>
    var noShiftEnableKey: set<string>
    var disablePattern: seq<set<string>>

    function Current(): Policy
      reads this
    {
      Policy(modifierKey, functionKey, enableKey, noShiftEnableKey, disablePattern)
    }

    /** Empty categories and the operating system's reserved combinations (ALT+ESCAPE twice). */
    constructor (catalog: Catalog)
      requires Knows(catalog, SystemPatternNames)
      ensures this.catalog == catalog
      ensures errorString == NoError
      ensures Current() == Policy({}, {}, {}, {}, SystemPatterns)
    {
      this.catalog := catalog;
      errorString := NoError;
      modifierKey := {};
      functionKey := {};
      enableKey := {};
      noShiftEnableKey := {};
      disablePattern := SystemPatterns;
    }

    /** Configure the usual policy; returns the filter itself. */
    method SetDefault(supportInputChar: bool, isSystem: bool, arrowCharKey: bool) returns (self: KeyFilter)
      requires Knows(catalog, DefaultPatternNames)
      modifies this
      ensures self == this
      ensures Current() == Defaulted(old(Current()), catalog, supportInputChar, isSystem, arrowCharKey)
      ensures errorString == old(errorString)
    {
      modifierKey := modifierKey + {"CTRL"};
      modifierKey := modifierKey + {"ALT"};
      modifierKey := modifierKey + {"SHIFT"};
      functionKey := functionKey + catalog.functionKeys;
      functionKey := functionKey + catalog.specialKeys;
      if supportInputChar {
        disablePattern := disablePattern + InputCharPatterns;
        enableKey := enableKey + catalog.inputControlKeys;
      } else {
        functionKey := functionKey + catalog.inputControlKeys;
      }
      if isSystem {
        functionKey := functionKey + catalog.standaloneKeys;
      } else {
        disablePattern := disablePattern + UserPatterns;
        enableKey := enableKey + catalog.standaloneKeys;
      }
      if arrowCharKey {
        functionKey := functionKey + catalog.characterKeys;
      } else {
        noShiftEnableKey := noShiftEnableKey + catalog.characterKeys;
      }
      return this;
    }

    /** Reserve a combination; `false` stands for the `ValueError` on an unknown name. */
    method AddDisablePattern(patternString: string) returns (ok: bool)
      modifies this
      ensures (Current(), ok) == WithPattern(old(Current()), catalog, patternString)
      ensures errorString == old(errorString)
    {
      var patterns := Split(patternString, '+');
      var i := 0;
      while i < |patterns|
        invariant 0 <= i <= |patterns|
        invariant forall j :: 0 <= j < i ==> Upper(patterns[j]) in catalog.codes
      {
        var ptn := Upper(patterns[i]);
        if ptn !in catalog.codes {
          return false;
        }
        i := i + 1;
      }
      disablePattern := disablePattern + [TokenSet(patterns)];
      return true;
    }

    /** Move one key into `target`; `false` stands for the `ValueError` on an unknown name. */
    method SetKeyGroup(key: string, target: Group) returns (ok: bool)
      modifies this
      ensures (Current(), ok) == GroupStep(old(Current()), catalog, key, target)
      ensures errorString == old(errorString)
    {
      var k := Upper(key);
      if k !in catalog.codes {
        return false;
      }
      disablePattern := RemoveFirst(disablePattern, CharSet(k));
      enableKey := enableKey - {k};
      functionKey := functionKey - {k};
      modifierKey := modifierKey - {k};
      noShiftEnableKey := noShiftEnableKey - {k};
      match target {
        case Modifiers => modifierKey := modifierKey + {k};
        case Functions => functionKey := functionKey + {k};
        case Enables => enableKey := enableKey + {k};
        case NoShiftEnables => noShiftEnableKey := noShiftEnableKey + {k};
      }
      return true;
    }

    /** `add_enable_key` and its siblings: apply `SetKeyGroup` to each name in order. */
    method AddKeys(keys: seq<string>, target: Group) returns (ok: bool)
      modifies this
      ensures (Current(), ok) == GroupAll(old(Current()), catalog, keys, target)
      ensures errorString == old(errorString)
    {
      var i := 0;
      while i < |keys|
        invariant 0 <= i <= |keys|
        invariant (Current(), true) == GroupAll(old(Current()), catalog, keys[..i], target)
        invariant errorString == old(errorString)
      {
        assert keys[..i + 1][..i] == keys[..i];
        ok := SetKeyGroup(keys[i], target);
        if !ok {
          assert GroupAll(old(Current()), catalog, keys, target) == (Current(), false) by {
            GroupAllStops(old(Current()), catalog, keys, target, i + 1);
          }
          return false;
        }
        i := i + 1;
      }
      assert keys[..i] == keys;
      return true;
    }

    /** Validate a key combination, recording the reason of a rejection. */
    method Check(keyString: string) returns (answer: Answer)
      modifies this`errorString
      ensures Outcome(answer, errorString) == CheckSpec(Current(), keyString)
      ensures answer == Accept ==> errorString == NoError
    {
      if keyString == "" {
        errorString := NoKeySpecified;
        return Reject;
      }
      errorString := NoError;
      var keys := Split(Upper(keyString), '+');
      var modFlg, shiftFlg := false, false;
      var funcCount, enableCount, noShiftCount := 0, 0, 0;
      var i := 0;
      while i < |keys|
        invariant 0 <= i <= |keys|
        invariant forall j :: 0 <= j < i ==> Classify(Current(), keys[j]) != Unusable
        invariant Tally(modFlg, shiftFlg, funcCount, enableCount, noShiftCount) == TallyOf(Current(), keys[..i])
      {
        var key := keys[i];
        assert keys[..i + 1][..i] == keys[..i];
        if key in modifierKey {
          if key == "SHIFT" {
            shiftFlg := true;
          } else {
            modFlg := true;
          }
        } else if key in functionKey {
          funcCount := funcCount + 1;
        } else if key in enableKey {
          enableCount := enableCount + 1;
        } else if key in noShiftEnableKey {
          noShiftCount := noShiftCount + 1;
        } else {
          FirstUnusableAt(Current(), keys, i);
          errorString := UnusableKey(key);
          return Reject;
        }
        i := i + 1;
      }
      assert keys[..i] == keys;

      if |keys| == 1 {
        if funcCount > 0 {
          return Accept;
        } else {
          if modFlg || shiftFlg {
            errorString := ModifierOnlyPattern;
          } else {
            errorString := ModifierRequired;
          }
          return Reject;
        }
      }

      // every branch below ends the call, so they form one chain; the error is written once at the end
      var error := NoError;
      if funcCount + enableCount + noShiftCount > 1 {
        answer, error := Reject, MultipleNonModifier;
      } else if !modFlg && !shiftFlg && funcCount == 0 {
        answer, error := ReturnNone, NonShiftModifierRequired;
      } else if funcCount == 0 && noShiftCount == 0 && enableCount == 0 {
        answer, error := Reject, ModifierOnlyCombination;
      } else if enableCount > 0 && !modFlg && !shiftFlg {
        answer := RaiseBug;
      } else if noShiftCount > 0 && !modFlg {
        answer, error := Reject, NonShiftModifierRequired;
      } else if TokenSet(keys) in disablePattern {
        answer, error := Reject, Reserved;
      } else {
        answer := Accept;
      }
      errorString := error;
    }

    /** `get_last_error`: the reason `Check` recorded, empty after an acceptance. */
    function GetLastError(): (e: FilterError)
      reads this
      ensures e == errorString
    {
      errorString
    }

    /** Every name of the four categories, each set listed in turn. */
    method GetUsableKeys() returns (keys: seq<string>)
      ensures multiset(keys) == multiset(modifierKey) + multiset(functionKey) + multiset(enableKey) + multiset(noShiftEnableKey)
      ensures forall k :: k in keys <==> k in modifierKey + functionKey + enableKey + noShiftEnableKey
    {
      var m := Enumerate(modifierKey);
      var f := Enumerate(functionKey);
      var e := Enumerate(enableKey);
      var n := Enumerate(noShiftEnableKey);
      keys := m + f + e + n;
      assert forall k :: k in keys <==> k in multiset(keys);
    }
  }

  /** Once a name in the list is unknown, the rest of the list is not applied. */
  lemma {:induction false} GroupAllStops(p: Policy, c: Catalog, keys: seq<string>, g: Group, n: nat)
    requires 0 < n <= |keys|
    requires !GroupAll(p, c, keys[..n], g).1
    ensures GroupAll(p, c, keys, g) == GroupAll(p, c, keys[..n], g)
    decreases |keys|
  {
    if n < |keys| {
      var init := keys[..|keys| - 1];
      assert init[..n] == keys[..n];
      GroupAllStops(p, c, init, g, n);
    } else {
      assert keys[..n] == keys;
    }
  }

  /** List the elements of a set, each once, in some order. */
  method Enumerate(s: set<string>) returns (r: seq<string>)
    ensures multiset(r) == multiset(s)
  {
    r := [];
    var rest := s;
    while rest != {}
      invariant rest <= s
      invariant multiset(r) + multiset(rest) == multiset(s)
      decreases |rest|
    {
      var x :| x in rest;
      assert multiset(rest) == multiset(rest - {x}) + multiset{x};
      r := r + [x];
      rest := rest - {x};
    }
  }
}
