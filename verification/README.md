# keymapHandler in Dafny

A model of the shortcut-key core of `keymapHandler`, a Python helper that builds
wxPython accelerator tables from INI-style keymaps. Each view (a window, named
case-insensitively) binds command refs to key strings such as `CTRL+A/F5`. The
model covers five parts of that core:

- **the menu reference allocator** (`menu_items_store.dfy`, module `MenuItemsStore`):
  a case-insensitive map from identifier to command number. It hands out 5000,
  5001, … on first use and returns the same number on every later lookup.
  `Resolve` is the lookup as a function. The class `RefStore` is the mutable
  store; its `GetRef` is proved to follow `Resolve`.
- **the accelerator entry** (`accelerator_entry.dfy`, module `Accelerator`):
  an immutable `(flags, keyCode, command, refName)` record. Its equality looks
  at the trigger only: the flags and the key code.
- **the key filter** (`key_filter.dfy`, module `Filter`): four category sets
  (modifier, function, enable and no-shift-enable keys), the list of reserved
  token sets, and the reason for the last rejection.
  - `CheckSpec` states the validation cascade of `check`.
  - The class `KeyFilter` holds the sets as fields. Its `Check` runs the
    counting loop and is proved equal to `CheckSpec`. Its set-up methods are
    proved equal to `Defaulted`, `WithPattern`, `GroupStep` and `GroupAll`.
- **the entry factory** (`entry_factory.dfy`, module `EntryFactory`): `make_entry`.
  It upper-cases the key, detects modifiers by the substring `NAME+`, demands
  exactly one token that is not a modifier, looks the last token up in the key
  catalog, and consults the filter. Only then does it ask the allocator for a ref.
- **the keymap registry** (`keymap_handler.dfy`, module `Keymap`): the per-view
  tables, which are:
  - the entry lists;
  - the ref → key-string map;
  - the error maps;
  - across views, the redirect table of merged conflicts.

  The functions over `Registry` (`AddSpec`, `Replace`, `TakeErrors`, `KeyStringOf`,
  `AddDictSpec`) state what each operation does. The class `KeymapHandler` keeps
  the same tables as fields, and each of its methods is proved to update them as
  its function says.

`text.dfy` (module `Text`) holds the string operations the source borrows from
Python: ASCII `upper`, `split` with its inverse `Join`, and substring search.
`key_catalog.dfy` holds the key catalog as an abstract value. `options.dfy`
holds `Option`, which stands for Python's `None`.

The repository has two copies of this logic: snake_case files (`keymap_handler.py`,
`key_filter.py`) and camelCase files (`keymapHandler.py`, `keyFilter.py`,
`__init__.py`). Both are modelled once. The rows below cite the snake_case
files. The camelCase copies have the same structure:
- `keyFilter.py` has the same line numbers as `key_filter.py`;
- `keymapHandler.py` is shifted by one or two lines;
- `__init__.py:7-41` holds `makeEntry`, the twin of `make_entry`.

Where a copy has a crash-level slip, the model follows the evidently intended
behaviour. These slips are listed under "Left out".

## Model

| member | source | states |
|---|---|---|
| MenuItemsStore.Resolve | keymapHandler/menuItemsStore.py:16-25 | after a lookup, the upper-cased identifier is stored and mapped to the returned ref |
| MenuItemsStore.FreshStoreStartsAtFirstRef | keymapHandler/menuItemsStore.py:12-25 | a fresh store answers its first lookup with 5000, storing only that identifier, and next_id becomes 5001 |
| MenuItemsStore.FreshIsWellFormed | keymapHandler/menuItemsStore.py:12-14 | the empty store satisfies the invariant: keys upper case, refs in [5000, next_id), no ref shared |
| MenuItemsStore.KnownIdentifierIsStable | keymapHandler/menuItemsStore.py:17-19 | an identifier already known, in any letter case, returns its stored ref and leaves the store unchanged |
| MenuItemsStore.UnseenIdentifierIsAppended | keymapHandler/menuItemsStore.py:20-25 | an unseen identifier gets next_id; next_id grows by exactly one; the key set grows by the upper-cased identifier only; every earlier assignment is kept |
| MenuItemsStore.CaseInsensitive | keymapHandler/menuItemsStore.py:17 | identifiers equal after upper-casing give the same result and the same new state |
| MenuItemsStore.ResolveKeepsWellFormed | keymapHandler/menuItemsStore.py:16-25 | lookups preserve the invariant (injective, refs in [5000, next_id)); the returned ref is in range; next_id never decreases |
| MenuItemsStore.DistinctIdentifiersGetDistinctRefs | keymapHandler/menuItemsStore.py:20-23 | two identifiers that differ after upper-casing, looked up in turn, get different refs |
| MenuItemsStore.RefStore.constructor | keymapHandler/menuItemsStore.py:12-14 | a new store is empty with next_id 5000, and satisfies the invariant |
| MenuItemsStore.RefStore.GetRef | keymapHandler/menuItemsStore.py:16-31 | the new state and the ref are exactly those of `Resolve`; the invariant is preserved |
| Accelerator.EqualsOnlyEntries | keymapHandler/acceleratorEntry.py:17 | comparison with None or with a value of another type is false |
| Accelerator.Equals | keymapHandler/acceleratorEntry.py:15-20 | `__eq__` holds only against another entry, and then exactly when the flags and the key codes are equal |
| Accelerator.EqualsIffSameTrigger | keymapHandler/acceleratorEntry.py:15-20 | two entries are equal iff their flags and key codes are equal; changing the command or the ref name never changes the answer |
| Accelerator.SameTriggerIsEquivalence | keymapHandler/acceleratorEntry.py:18-20 | entry equality is reflexive, symmetric and transitive |
| Accelerator.ToString | keymapHandler/acceleratorEntry.py:28-29 | the string form begins with `<AcceleratorEntry ` and ends with `>` |
| Accelerator.Repr | keymapHandler/acceleratorEntry.py:25-26 | repr equals str |
| Accelerator.ToStringRecoversRefName | keymapHandler/acceleratorEntry.py:22-29 | the text between the prefix and the closing `>` is exactly the ref name given at construction |
| Accelerator.ToStringInjectiveOnRefName | keymapHandler/acceleratorEntry.py:28-29 | corollary of `ToStringRecoversRefName`: two entries print the same iff their ref names are equal |
| Text.Upper | keymapHandler/menuItemsStore.py:17 | upper-casing keeps the length and maps each character on its own: a-z to A-Z, everything else unchanged |
| Text.Split | keymapHandler/key_filter.py:144 | splitting yields at least one part, and no part contains the separator |
| Filter.FirstUnusable | keymapHandler/key_filter.py:150-169 | None iff every token is in one of the four category sets; otherwise the token returned is one of the tokens and is in none of them |
| Filter.Verdict | keymapHandler/key_filter.py:171-202 | the verdict after the counting loop: an acceptance leaves the error empty, a rejection always names a reason |
| Filter.CheckSpec | keymapHandler/key_filter.py:138-202 | `check`: whenever it accepts, the last error is empty; whenever it rejects, the last error names a reason |
| Filter.TallyMeaning | keymapHandler/key_filter.py:150-165 | after the loop, mod_flg is set iff a modifier other than SHIFT was seen; shift_flg iff SHIFT was seen as a modifier; each counter is positive iff a token of its category was seen |
| Filter.TallyBalance | keymapHandler/key_filter.py:150-165 | when every token is usable and no modifier was seen, the three counters add up to the number of tokens |
| Filter.DeadBranchesUnreachable | keymapHandler/key_filter.py:186-193 | `check` only ever returns True or False: the branch returning None and the branch raising the "bug" error are unreachable |
| Filter.EmptyKeyRejected | keymapHandler/key_filter.py:139-141 | the empty string is rejected with the "no key specified" error |
| Filter.FirstUnusableTokenRejected | keymapHandler/key_filter.py:143-169 | a non-empty string whose i-th token is the first unusable one is rejected, and the error names that token |
| Filter.FirstUnusableAt | keymapHandler/key_filter.py:150-169 | the unusable token reported is the first one in the input order |
| Filter.SingleTokenRule | keymapHandler/key_filter.py:172-180 | a single token is accepted iff it is a function key and not a modifier; the reserved patterns play no part |
| Filter.OneNonModifierRequired | keymapHandler/key_filter.py:183-191 | a multi-token input whose tokens are all usable but whose non-modifier count is not exactly one is rejected |
| Filter.NoShiftKeyNeedsOtherModifier | keymapHandler/key_filter.py:194-196 | a combination with a no-shift-enable key and no modifier other than SHIFT is rejected with the non-SHIFT-modifier error |
| Filter.ReservedCombinationRejected | keymapHandler/key_filter.py:198-200 | a multi-token input whose token set is a reserved pattern is rejected, whatever the token order |
| Filter.ModifierPlusKey | keymapHandler/key_filter.py:150-202 | a modifier with one function, enable or no-shift-enable key, in either order, is accepted iff the pair is not reserved and a no-shift-enable key is not paired with SHIFT |
| Filter.RemoveFirst | keymapHandler/key_filter.py:128-131 | `list.remove` with ValueError ignored: unchanged when absent, one element shorter when present |
| Filter.RemoveFirstAt | keymapHandler/key_filter.py:129 | removal takes out exactly the first equal element and keeps the order of the rest |
| Filter.GroupStep | keymapHandler/key_filter.py:124-136 | `_set_key_group` succeeds iff the upper-cased key is in the catalog; on failure the policy is unchanged; on success the key is in the target set |
| Filter.GroupAll | keymapHandler/key_filter.py:100-122 | an `add_*_key` list call never adds reserved patterns |
| Filter.WithPattern | keymapHandler/key_filter.py:92-98 | `add_disable_pattern` touches only the reserved patterns. It succeeds iff every upper-cased token is in the catalog; it then appends exactly the set of raw tokens, and otherwise nothing; the earlier patterns stay a prefix |
| Filter.Defaulted | keymapHandler/key_filter.py:31-90 | `set_default` only adds keys: each of the four category sets keeps every earlier member |
| Filter.GroupedMembership | keymapHandler/key_filter.py:132-136 | after `_set_key_group`, the key is in the target set and in none of the other three; other keys keep their memberships |
| Filter.GroupedDisabled | keymapHandler/key_filter.py:128-131 | `_set_key_group` removes at most one reserved pattern, one equal to the key's character set; the rest are kept as a multiset |
| Filter.GroupAllPlacesEveryKey | keymapHandler/key_filter.py:100-122 | an `add_*_key` list call succeeds iff every name is in the catalog; on success every upper-cased name is in the target set only |
| Filter.GroupAllStops | keymapHandler/key_filter.py:103-104 | once a name raises, later names of the list are not applied |
| Filter.DefaultedShape | keymapHandler/key_filter.py:47-88 | `set_default` adds CTRL, ALT and SHIFT as modifiers and keeps the earlier patterns as a prefix. It appends exactly 10 patterns for character input and 7 for user configuration. Character keys become function keys iff arrow_char_key holds, and no-shift-enable keys otherwise |
| Filter.KeyFilter.constructor | keymapHandler/key_filter.py:12-29 | empty category sets, an empty error, and the eight OS-reserved patterns in order, with ALT+ESCAPE twice |
| Filter.KeyFilter.SetDefault | keymapHandler/key_filter.py:31-90 | the new policy is `Defaulted` of the old one; the method returns the filter itself; the last error is unchanged |
| Filter.KeyFilter.AddDisablePattern | keymapHandler/key_filter.py:92-98 | `WithPattern`: if any upper-cased token is unknown, nothing changes; otherwise the set of raw tokens is appended |
| Filter.KeyFilter.SetKeyGroup | keymapHandler/key_filter.py:124-136 | `GroupStep`: an unknown key changes nothing (ValueError); a known key moves into the target set |
| Filter.KeyFilter.AddKeys | keymapHandler/key_filter.py:100-122 | `GroupAll`: the names are applied in order, stopping at the first unknown one |
| Filter.KeyFilter.Check | keymapHandler/key_filter.py:138-202 | the answer and the last error are those of `CheckSpec`; only the last error is written; acceptance leaves the error empty |
| Filter.KeyFilter.GetUsableKeys | keymapHandler/key_filter.py:207-210 | the list holds each member of the four sets, set by set, and its membership is exactly their union |
| Filter.KeyFilter.GetLastError | keymapHandler/key_filter.py:204-205 | `get_last_error` returns the reason recorded by the last `check` |
| Filter.Enumerate | keymapHandler/key_filter.py:209 | listing a set yields each element exactly once |
| EntryFactory.DetectModifiers | keymapHandler/keymap_handler.py:266-271 | bound: the flag count never exceeds the size of the modifier table |
| EntryFactory.DetectModifiersMembers | keymapHandler/keymap_handler.py:268-271 | a modifier is among the flags iff it is in the table and `NAME+` occurs in the key |
| EntryFactory.DetectModifiersCount | keymapHandler/keymap_handler.py:266-271 | for a table without repeats, flag_count equals the number of flags set |
| EntryFactory.DetectStep | keymapHandler/keymap_handler.py:268-271 | proof helper: each table entry adds its modifier and one to the count exactly when detected |
| EntryFactory.ModifierTableDistinct | keymapHandler/keymap_handler.py:257-264 | the modifier table names each modifier once |
| EntryFactory.ModifierTableMembers | keymapHandler/keymap_handler.py:257-264 | WINDOWS is in the table only when the filter lists it among its modifier keys |
| EntryFactory.DetectedCount | keymapHandler/keymap_handler.py:257-271 | with the detected modifiers known, the fold yields exactly those flags and their number |
| EntryFactory.MakeEntryOutcome | keymapHandler/keymap_handler.py:253-287 | success iff the structural and catalog checks pass and the filter, if any, accepts. A success carries the parsed flags and code, the allocator's ref for the upper-cased ref and that name; a failure leaves the allocator untouched |
| EntryFactory.FilterConsultedLast | keymapHandler/keymap_handler.py:273-286 | when the token-count or catalog check fails, the result is a failure whatever the filter's policy (for the same WINDOWS setting) |
| EntryFactory.KeyCaseIgnored | keymapHandler/keymap_handler.py:255 | key strings equal after upper-casing give the same result |
| EntryFactory.PatternTexts | keymapHandler/keymap_handler.py:269 | the detection texts are `CTRL+`, `ALT+`, `SHIFT+` and `WINDOWS+` |
| EntryFactory.TrailingModifierRejected | keymapHandler/keymap_handler.py:268-276 | example: `A+CTRL` is an invalid pattern: a modifier written after the key is not detected |
| EntryFactory.RepeatedModifierRejected | keymapHandler/keymap_handler.py:268-276 | example: `CTRL+CTRL+A` is an invalid pattern: the modifier counts once |
| EntryFactory.TwoModifiersParsed | keymapHandler/keymap_handler.py:266-281 | example: `CTRL+SHIFT+A` parses to flags {CTRL, SHIFT} and the code of A |
| EntryFactory.CtrlShiftDetected | keymapHandler/keymap_handler.py:268-271 | proof helper for the examples: in `CTRL+SHIFT+A` exactly CTRL and SHIFT are detected |
| EntryFactory.CtrlShiftTokens | keymapHandler/keymap_handler.py:273 | proof helper for the examples: `CTRL+SHIFT+A` splits into its three tokens |
| EntryFactory.ParseKey | keymapHandler/keymap_handler.py:266-281 | the structural parse succeeds iff the token count is the detected modifier count plus one and the last token is in the catalog; a success carries the detected flags and that token's code; an unknown key name is not in the catalog |
| EntryFactory.MakeEntrySpec | keymapHandler/keymap_handler.py:253-287 | a failure leaves the allocator unchanged; a success carries the upper-cased ref name and the allocator state after looking that name up |
| EntryFactory.FilterErrorAfter | keymapHandler/keymap_handler.py:273-286 | the filter's last error after `make_entry`: unchanged without a filter and for a key that fails the structural or catalog check, since `check` is only reached after those |
| EntryFactory.FilterErrorExplainsOutcome | keymapHandler/keymap_handler.py:284-286 | with a filter, a built entry leaves its last error empty, and a parsed key that is refused leaves a non-empty reason there |
| EntryFactory.AcceptedKeyIsParsed | keymapHandler/keymap_handler.py:273-286 | for a filter whose categories come from the catalog, a key the filter accepts, with the right token count, also passes the catalog lookup |
| EntryFactory.AcceptedTokensAreUsable | keymapHandler/key_filter.py:150-169 | every token of an accepted key string is in one of the four category sets |
| EntryFactory.Modifiers | keymapHandler/keymap_handler.py:266-271 | the loop's flags and flag_count are those of `DetectModifiers` |
| EntryFactory.Parse | keymapHandler/keymap_handler.py:266-281 | the structural part returns the `ParseKey` outcome: invalid pattern, unknown key name, or flags and code |
| EntryFactory.MakeEntry | keymapHandler/keymap_handler.py:253-287 | the result and the allocator's new state are those of `MakeEntrySpec`; the filter's policy is unchanged; its last error becomes `FilterErrorAfter`: the `check` error for a key that parses, the old error otherwise |
| Keymap.RecordError | keymapHandler/keymap_handler.py:216-223 | `add_error` stores the whole key string under the view and the ref, keeps the view's other errors and other views' errors, and changes no other table |
| Keymap.ErrorsReadOnce | keymapHandler/keymap_handler.py:112-120 | `get_error` returns the view's errors and clears them, so a second read returns {}; an unknown view yields {} and creates nothing; no other view changes |
| Keymap.TakeErrors | keymapHandler/keymap_handler.py:112-120 | `get_error` touches only the error maps and keeps their views; for a known view it returns that view's errors and leaves its map empty |
| Keymap.Matching | keymapHandler/keymap_handler.py:189-192 | the collision list is no longer than the view's entries |
| Keymap.MatchingMembers | keymapHandler/keymap_handler.py:189-192 | the collision list holds exactly the view's entries with the new entry's trigger |
| Keymap.MatchingRespectsTrigger | keymapHandler/keymap_handler.py:190-192 | entries with the same trigger select the same collisions |
| Keymap.RemoveFirstMatch | keymapHandler/keymap_handler.py:238 | `list.remove(items[0])` removes one entry when some entry is equal to it |
| Keymap.RemoveFirstMatchEffect | keymapHandler/keymap_handler.py:238 | one removal drops the first colliding entry and keeps every other entry in order |
| Keymap.RemoveNEffect | keymapHandler/keymap_handler.py:237-238 | n removals drop the first n colliding entries and keep every other entry in order |
| Keymap.Rebind | keymapHandler/keymap_handler.py:241-243 | each item is re-created with its own flags, key code and ref name under the new command |
| Keymap.Commands | keymapHandler/keymap_handler.py:242 | the recorded originals are the items' commands in order |
| Keymap.MergeRef | keymapHandler/keymap_handler.py:233 | the merged ref is the allocator's ref for the upper-cased `keymap_` plus the raw key string of the first item |
| Keymap.Replace | keymapHandler/keymap_handler.py:225-244 | `replace_original_ref` changes only the view's entry list and the redirect table, and adds exactly the merged ref to the redirect table's keys |
| Keymap.MergedEntries | keymapHandler/keymap_handler.py:236-243 | after the merge, the view's entries with that trigger are exactly the re-created items; the other entries keep their order |
| Keymap.MergeRebindsAll | keymapHandler/keymap_handler.py:225-244 | a permitted merge of n colliding items leaves exactly n entries with that trigger, all under the new ref. The other entries keep their order, `ref_map[new_ref]` lists the items' commands, and other views, the key map and the errors are untouched |
| Keymap.Bind | keymapHandler/keymap_handler.py:203-208 | the ref gains a key string, and other refs keep theirs |
| Keymap.Place | keymapHandler/keymap_handler.py:183-213 | one alternative changes only its own view's tables; the set of views is unchanged |
| Keymap.AddOne | keymapHandler/keymap_handler.py:182-213 | one alternative changes only its own view's tables |
| Keymap.AddAll | keymapHandler/keymap_handler.py:182-213 | the alternatives change only their view's tables |
| Keymap.WithView | keymapHandler/keymap_handler.py:176-179 | a view seen for the first time gets an empty entry list and key map, appended to the view order; known views are unchanged |
| Keymap.AddSpec | keymapHandler/keymap_handler.py:170-214 | `add` creates the upper-cased view if needed, touches no other view's entries or key map, and keeps the tables consistent |
| Keymap.FailureIgnoresAllocator | keymapHandler/keymap_handler.py:253-287 | whether an alternative fails does not depend on the allocator's state |
| Keymap.PlaceIgnoresErrors | keymapHandler/keymap_handler.py:183-213 | recorded errors play no part in what placing does to the other tables |
| Keymap.AddOneIgnoresErrors | keymapHandler/keymap_handler.py:182-213 | recorded errors play no part in what one alternative does to the other tables |
| Keymap.AddAllIgnoresErrors | keymapHandler/keymap_handler.py:182-213 | recorded errors play no part in what the alternatives do to the other tables |
| Keymap.FailedAlternativeRecorded | keymapHandler/keymap_handler.py:183-186 | an alternative that cannot be built records the whole key string as the error and changes nothing else |
| Keymap.FailedLastAlternative | keymapHandler/keymap_handler.py:182-186 | a failing last alternative leaves the tables as if it were absent, and its error is recorded |
| Keymap.IsolatedSnoc | keymapHandler/keymap_handler.py:182-186 | processing continues after a failure: one more alternative keeps the two runs alike |
| Keymap.FailedAlternativeIsolated | keymapHandler/keymap_handler.py:182-186 | one failing alternative, anywhere in the key string, does not stop the rest. Every table but the errors, and the allocator, end up as if it had not been written, and its error stays recorded |
| Keymap.AddOneKeepsError | keymapHandler/keymap_handler.py:182-213 | an error recorded for the view and ref survives every later alternative |
| Keymap.RejectedConflictKeepsTables | keymapHandler/keymap_handler.py:193-200 | a collision without permission records a conflict and leaves entries, key map and redirects exactly as they were |
| Keymap.FreshBindingAppends | keymapHandler/keymap_handler.py:202-213 | a non-colliding alternative is appended at the end of the view's entries. `map[view][ref]` becomes the alternative as written, or the previous string plus "/" plus it |
| Keymap.PermittedConflictMerges | keymapHandler/keymap_handler.py:193-213 | a permitted collision merges all n items under the new ref, records their commands, and still updates the key map; no second append happens |
| Keymap.PlaceKeepsTriggersUnique | keymapHandler/keymap_handler.py:188-200 | without a conflict callback, placing an alternative never makes two entries of a view share a trigger |
| Keymap.AddAllKeepsTriggersUnique | keymapHandler/keymap_handler.py:182-213 | the same for all alternatives of a key string |
| Keymap.NoPermitKeepsTriggersUnique | keymapHandler/keymap_handler.py:170-214 | without a conflict callback, `add` keeps every view free of duplicate triggers |
| Keymap.FirstMapping | keymapHandler/keymap_handler.py:131-134 | the search finds nothing iff no view binds the ref |
| Keymap.FirstMappingAt | keymapHandler/keymap_handler.py:131-134 | the string returned is that of the first view, in creation order, that binds the ref |
| Keymap.KeyStringOf | keymapHandler/keymap_handler.py:122-134 | the view's own binding wins; the result is None iff neither the view nor any other view binds the ref |
| Keymap.AddThenKeyString | keymapHandler/keymap_handler.py:202-208 | a single non-colliding alternative that is built can be read back by `get_key_string`, appended after "/" to what the ref had in that view |
| Keymap.SingleAlternative | keymapHandler/keymap_handler.py:182 | example: a key string without "/" is processed as its one alternative |
| Keymap.AddItems | keymapHandler/keymap_handler.py:53-55 | a section's items (empty values skipped) touch only that section's upper-cased view |
| Keymap.AddSection | keymapHandler/keymap_handler.py:46-55 | one section keeps the tables consistent |
| Keymap.AddDictSpec | keymapHandler/keymap_handler.py:39-55 | all sections keep the tables consistent |
| Keymap.OnlyReadSectionsChange | keymapHandler/keymap_handler.py:46-55 | views that no read section names, raw or upper-cased, keep their entries and key strings |
| Keymap.RawSectionNameEmptied | keymapHandler/keymap_handler.py:52 | a read section whose raw name is not upper case ends with an empty entry list under the raw name, since `add` files entries under the upper-cased one |
| Keymap.SkippedSectionIgnored | keymapHandler/keymap_handler.py:47-49 | a skipped section changes nothing: listed sections are required when a list is given, and raw names containing HOTKEY are skipped otherwise |
| Keymap.Skipped | keymapHandler/keymap_handler.py:47-49 | without a section list, a section is skipped iff its raw name contains `HOTKEY` |
| Keymap.FilterErrorAfterAlts | keymapHandler/keymap_handler.py:182-186 | the filter's last error after the alternatives of one key string; without a filter it is the error from before |
| Keymap.FilterErrorAfterAltsSnoc | keymapHandler/keymap_handler.py:182-186 | proof helper: one more alternative applies `FilterErrorAfter` to the error so far |
| Keymap.FilterErrorFromLastParsed | keymapHandler/keymap_handler.py:182-186 | alternatives after the last one that parses leave the filter's last error as it was, so it is the one `check` recorded for that alternative |
| Keymap.FilterErrorAfterItems | keymapHandler/keymap_handler.py:53-55 | the filter's last error after a section's items; without a filter it is the error from before |
| Keymap.FilterErrorAfterSections | keymapHandler/keymap_handler.py:39-55 | the filter's last error after `add_dict`; without a filter it is the error from before |
| Keymap.KeymapHandler.constructor | keymapHandler/keymap_handler.py:24-37 | a new handler has empty tables and then reads the initial sections as `add_dict` without a section list; the filter's last error becomes `FilterErrorAfterSections` of those sections |
| Keymap.KeymapHandler.AddError | keymapHandler/keymap_handler.py:216-223 | the tables become `RecordError` of the old ones |
| Keymap.KeymapHandler.GetError | keymapHandler/keymap_handler.py:112-120 | the returned map and the new tables are those of `TakeErrors` |
| Keymap.KeymapHandler.ReplaceOriginalRef | keymapHandler/keymap_handler.py:225-244 | for a view holding at least `len(items) - 1` entries equal to `items[0]` (as `add` guarantees), the tables and the allocator become those of `Replace` of the old ones |
| Keymap.KeymapHandler.RemoveRepeatedly | keymapHandler/keymap_handler.py:237-238 | only the view's entry list changes, by n removals |
| Keymap.KeymapHandler.Reappend | keymapHandler/keymap_handler.py:241-243 | the view's entries gain the re-created items and the redirect entry gains their commands, both in order |
| Keymap.KeymapHandler.Colliding | keymapHandler/keymap_handler.py:189-192 | the check list is exactly the view's entries equal to the new one, in order |
| Keymap.KeymapHandler.PlaceEntry | keymapHandler/keymap_handler.py:183-213 | the tables and the allocator become those of `Place` |
| Keymap.KeymapHandler.AddAlternative | keymapHandler/keymap_handler.py:182-213 | the tables and the allocator become those of `AddOne`; the filter's policy is unchanged; its last error becomes `FilterErrorAfter` of the alternative |
| Keymap.KeymapHandler.AddAlternatives | keymapHandler/keymap_handler.py:182-213 | the tables and the allocator become those of `AddAll`; the filter's last error becomes `FilterErrorAfterAlts` |
| Keymap.KeymapHandler.OpenView | keymapHandler/keymap_handler.py:176-179 | the tables become `WithView` of the old ones |
| Keymap.KeymapHandler.Add | keymapHandler/keymap_handler.py:170-214 | the tables and the allocator become those of `AddSpec`; the tables stay consistent; the filter's policy is unchanged; its last error becomes `FilterErrorAfterAlts` of the key string's alternatives |
| Keymap.KeymapHandler.GetKeyString | keymapHandler/keymap_handler.py:122-134 | the loop returns `KeyStringOf` of the tables |
| Keymap.KeymapHandler.IsRefHit | keymapHandler/keymap_handler.py:246-250 | a ref is a hit exactly when `get_original_refs` has a list for it |
| Keymap.KeymapHandler.GetOriginalRefs | keymapHandler/keymap_handler.py:249-250 | a list is returned iff the ref has a redirect entry, and it is that entry's list of original commands |
| Keymap.KeymapHandler.AddDict | keymapHandler/keymap_handler.py:39-55 | the tables and the allocator become those of `AddDictSpec`; the tables stay consistent; the filter's last error becomes `FilterErrorAfterSections` |
| Keymap.KeymapHandler.ReadSection | keymapHandler/keymap_handler.py:46-55 | one section: skipped, or read as `AddSection` says; the filter's last error is unchanged for a skipped section and `FilterErrorAfterItems` otherwise |
| Keymap.KeymapHandler.AddItemsOf | keymapHandler/keymap_handler.py:53-55 | the item loop: the tables and the allocator become those of `AddItems`; the filter's last error becomes `FilterErrorAfterItems` |

## Left out

- wxPython: `get_table`, `get_entries`, `set` and the `wx.AcceleratorEntry` base class are GUI plumbing. Flags are a set of distinct modifier bits; `GetFlags`, `GetKeyCode` and `GetCommand` are field reads.
- `ToRawString` is a foreign wx call. It is an abstract function of (flags, key code) fixed when the handler is created.
- `permit_conflict` is the caller's callback. It is an arbitrary predicate on the check list, fixed when the handler is created. Its logger argument is dropped.
- Logging and gettext: log messages are not modelled. Error messages are the kinds of `FilterError`, not their texts.
- File I/O: `add_file`, `save_file`, `os.path.exists` and configparser parsing are not part of this model. `add_dict` takes the parsed sections as an ordered list of (raw name, items). configparser's own handling, such as lower-casing option names and the DEFAULT section, is not modelled. `add` upper-cases refs anyway.
- The key catalog (`str_to_key`, `str2key` and its category maps) is not part of this model. It is an abstract `Catalog` value.
- The process-wide allocator `_store` and the module function `get_ref` are an explicit `RefStore` object passed to whoever needs refs.
- Text.Upper: ASCII only. Python's `str.upper` also maps non-ASCII letters (é to É) and can lengthen a string (ß to SS).
- Filter.KeyFilter.GetUsableKeys: the order in which Python iterates a set is not modelled. The contract fixes the list's contents as a multiset, not its order.
- Filter.KeyFilter.constructor: requires the catalog to know the names used by the OS-reserved patterns. With an unknown name, the source's `add_disable_pattern` would raise during construction.
- Filter.KeyFilter.SetDefault: requires the catalog to know the names used by its reserved patterns, for the same reason.
- Filter.KeyFilter.Check: the never-taken `return` without a value and the `raise Error(...)` appear as the answers `ReturnNone` and `RaiseBug`. `Filter.DeadBranchesUnreachable` proves that neither happens.
- Keymap.KeymapHandler.ReplaceOriginalRef: requires a non-empty item list, a known view, and at least `len(items) - 1` entries of that view equal to `items[0]`. `add` guarantees all three. A direct call that breaks them fails in the source with IndexError, KeyError or ValueError, the last after `ref_map[new_ref]` was reset and some entries removed; that partial update is not modelled.
- Keymap.KeymapHandler.GetOriginalRefs: yields None where the source raises KeyError for a ref without a redirect.
- Keymap.KeymapHandler.Add: requires the registry invariant `Valid` (every view with a key map has an entry list, and the view order lists each such view once). Every constructor and method keeps it.
- Keymap.Matching: its own contract states only a bound on the length. Its meaning is stated by `Keymap.MatchingMembers`.
- Crash-level slips, where the model follows the evidently intended behaviour:
  - `acceleratorEntry.py:11-13` names the parameter `ref_ame` but stores `ref_name`;
  - `keyFilter.py:120` passes a bare `noShiftEnableKey`;
  - `keymap_handler.py:10` imports `menu_items_store as store` but calls `menuItemsStore.getRef`, while `menuItemsStore.py:29` defines `get_ref`;
  - `keymap_handler.py:167-168` forwards keyword arguments with `*`, which breaks only keyword calls; `add` passes positional arguments only, so its path works as intended;
  - `__init__.py:12-14,18` uses `wx.ACCEL_CTRL`, `wx.ACCEL_ALT`, `wx.ACCEL_SHIFT` and `wx.MOD_WIN` without importing `wx` (`__init__.py:1-5`), so every call of `makeEntry` raises NameError;
  - `__init__.py:4` imports `getRef` from `menuItemsStore`, which defines only `get_ref` (`menuItemsStore.py:29`), so importing the package raises ImportError;
  - `keymapHandler.py:265,286-287`, the camelCase module's own `make_entry`, reads `filter.modifier_key`, `filter.check` and `filter.get_last_error`, while the camelCase `KeyFilter` defines `modifierKey`, `Check` and `GetLastError` (`keyFilter.py:17,138,204`), so it raises AttributeError;
  - `keymapHandler.py:169-170` calls a `makeEntry` that the module does not define;
  - `keymap_handler.py:243` (`keymapHandler.py:245`) calls `GetRefName`, which the entry class does not define (it has `get_ref_name`); the model uses the entry's ref name;
  - `keymap_handler.py:104` (`keymapHandler.py:106`) reads `entry.refName` where the entry stores `ref_name`; it lies in `save_file`;
  - `save_file` is not modelled at all.
- Python's `list.remove` raises ValueError when nothing is equal. `Keymap.KeymapHandler.ReplaceOriginalRef` requires enough entries equal to `items[0]`, so that case does not arise in the model.
