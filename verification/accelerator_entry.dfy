/**
 * The accelerator entry: an immutable (flags, key code, command, ref name)
 * value whose equality looks at the physical trigger (flags and key code) only.
 */
module Accelerator {

  /** The modifier bits of an accelerator; flags are a set of them (bitwise OR is union). */
  datatype Modifier = Ctrl | Alt | Shift | Win

  datatype Entry = Entry(flags: set<Modifier>, keyCode: int, command: int, refName: string)

  /** What an entry may be compared with: nothing, another entry, or a value of another type. */
  datatype Operand = NoneValue | EntryValue(entry: Entry) | ForeignValue

  /** Two entries fire on the same key combination; command and ref name are ignored. */
  predicate SameTrigger(a: Entry, b: Entry) {
    a.flags == b.flags && a.keyCode == b.keyCode
  }

  /** `entry == other`: false for `None` and for other types, else the trigger comparison. */
  predicate Equals(e: Entry, other: Operand): (r: bool)
    ensures r ==> other.EntryValue?
    ensures other.EntryValue? ==> (r <==> other.entry.flags == e.flags && other.entry.keyCode == e.keyCode)
  {
    match other
    case EntryValue(o) => SameTrigger(e, o)
    case _ => false
  }

  /** Equality against `None` or a non-entry value never holds. */
  lemma EqualsOnlyEntries(e: Entry, other: Operand)
    requires !other.EntryValue?
    ensures !Equals(e, other)
  {
  }

  /** Equality is decided by flags and key code alone. */
  lemma EqualsIffSameTrigger(e: Entry, o: Entry)
    ensures Equals(e, EntryValue(o)) <==> e.flags == o.flags && e.keyCode == o.keyCode
    ensures forall command: int, refName: string ::
      Equals(e, EntryValue(o)) == Equals(e, EntryValue(o.(command := command, refName := refName)))
  {
  }

  /** Being defined on (flags, keyCode) only, the relation is an equivalence. */
  lemma SameTriggerIsEquivalence(a: Entry, b: Entry, c: Entry)
    ensures SameTrigger(a, a)
    ensures SameTrigger(a, b) ==> SameTrigger(b, a)
    ensures SameTrigger(a, b) && SameTrigger(b, c) ==> SameTrigger(a, c)
  {
  }

  const StrPrefix: string := "<AcceleratorEntry "

  /** `str(entry)`. */
  function ToString(e: Entry): (s: string)
    ensures StrPrefix <= s && s[|s| - 1] == '>'
  {
    StrPrefix + e.refName + ">"
  }

  /** `repr(entry)` is the same text as `str(entry)`. */
  function Repr(e: Entry): (s: string)
    ensures s == ToString(e)
  {
    ToString(e)
  }

  /** The ref name can be read back from the string form, so it determines the text. */
  lemma ToStringRecoversRefName(e: Entry)
    ensures var s := ToString(e); s[|StrPrefix|..|s| - 1] == e.refName
  {
    var s := ToString(e);
    assert s == StrPrefix + e.refName + ">";
    assert |s| == |StrPrefix| + |e.refName| + 1;
    assert s[|StrPrefix|..|s| - 1] == e.refName;
  }

  lemma ToStringInjectiveOnRefName(a: Entry, b: Entry)
    ensures ToString(a) == ToString(b) <==> a.refName == b.refName
  {
    if ToString(a) == ToString(b) {
      ToStringRecoversRefName(a);
      ToStringRecoversRefName(b);
    }
  }
}
