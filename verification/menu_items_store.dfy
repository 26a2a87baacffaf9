/**
 * The menu reference allocator: a case-insensitive map from identifier to a
 * command number, handing out 5000, 5001, ... on first use and the same number
 * on every later lookup.  The process-wide singleton of the original is an
 * explicit `RefStore` object here, passed to whoever needs references.
 */
module MenuItemsStore {
  import opened Text

  /** The first reference a fresh store hands out. */
  const FirstRef: int := 5000

  /** The allocator's state: identifiers (stored upper-cased) and the next free number. */
  datatype Alloc = Alloc(refs: map<string, int>, nextId: int)

  function Fresh(): Alloc {
    Alloc(map[], FirstRef)
  }

  /** Keys are upper case, every ref lies in [FirstRef, nextId), and no ref is shared. */
  ghost predicate WellFormed(a: Alloc) {
    && FirstRef <= a.nextId
    && (forall k :: k in a.refs ==> IsUpper(k) && FirstRef <= a.refs[k] < a.nextId)
    && (forall k, l :: k in a.refs && l in a.refs && k != l ==> a.refs[k] != a.refs[l])
  }

  /**
   * One lookup: a known identifier (in any letter case) yields its stored ref;
   * an unseen one is stored under its upper-cased form with the current
   * `nextId`, which then grows by one.
   */
  function Resolve(a: Alloc, identifier: string): (r: (Alloc, int))
    ensures Upper(identifier) in r.0.refs && r.0.refs[Upper(identifier)] == r.1
  {
    var key := Upper(identifier);
    if key in a.refs then (a, a.refs[key])
    else (Alloc(a.refs[key := a.nextId], a.nextId + 1), a.nextId)
  }

  /** A fresh store answers its first lookup with 5000. */
  lemma FreshStoreStartsAtFirstRef(identifier: string)
    ensures Resolve(Fresh(), identifier).1 == 5000
    ensures Resolve(Fresh(), identifier).0 == Alloc(map[Upper(identifier) := 5000], 5001)
  {
  }

  lemma FreshIsWellFormed()
    ensures WellFormed(Fresh())
  {
  }

  /** A known identifier, in any letter case, gets its ref back and changes nothing. */
  lemma KnownIdentifierIsStable(a: Alloc, identifier: string)
    requires Upper(identifier) in a.refs
    ensures Resolve(a, identifier) == (a, a.refs[Upper(identifier)])
  {
  }

  /**
   * An unseen identifier gets `nextId`, is stored upper-cased, `nextId` grows by
   * exactly one, and every earlier assignment is kept.
   */
  lemma UnseenIdentifierIsAppended(a: Alloc, identifier: string)
    requires Upper(identifier) !in a.refs
    ensures var (b, ref) := Resolve(a, identifier);
      && ref == a.nextId
      && b.nextId == a.nextId + 1
      && b.refs.Keys == a.refs.Keys + {Upper(identifier)}
      && (forall k :: k in a.refs ==> b.refs[k] == a.refs[k])
  {
  }

  /** Identifiers that differ only in letter case share one ref. */
  lemma CaseInsensitive(a: Alloc, x: string, y: string)
    requires Upper(x) == Upper(y)
    ensures Resolve(a, x) == Resolve(a, y)
  {
  }

  /** Lookups keep the allocator well formed, and the ref they return is in range. */
  lemma ResolveKeepsWellFormed(a: Alloc, identifier: string)
    requires WellFormed(a)
    ensures var (b, ref) := Resolve(a, identifier);
      WellFormed(b) && FirstRef <= ref < b.nextId && a.nextId <= b.nextId
  {
    var key := Upper(identifier);
    UpperIdempotent(identifier);
    if key !in a.refs {
      var b := Resolve(a, identifier).0;
      forall k, l | k in b.refs && l in b.refs && k != l
        ensures b.refs[k] != b.refs[l]
      {
        if k == key { assert b.refs[l] == a.refs[l] < a.nextId; }
        else if l == key { assert b.refs[k] == a.refs[k] < a.nextId; }
      }
    }
  }

  /** Two identifiers that differ after upper-casing never get the same ref. */
  lemma DistinctIdentifiersGetDistinctRefs(a: Alloc, x: string, y: string)
    requires WellFormed(a)
    requires Upper(x) != Upper(y)
    ensures var (b, rx) := Resolve(a, x);
      Resolve(b, y).1 != rx
  {
    var (b, rx) := Resolve(a, x);
    ResolveKeepsWellFormed(a, x);
    var (c, ry) := Resolve(b, y);
    if Upper(y) in b.refs {
      assert ry == b.refs[Upper(y)] && rx == b.refs[Upper(x)];
    } else {
      assert ry == b.nextId;
    }
  }

  /** The allocator object; `GetRef` is the only operation and the only writer. */
  class RefStore {
    var refs: map<string, int>
    var nextId: int

    function State(): Alloc
      reads this
    {
      Alloc(refs, nextId)
    }

    ghost predicate Valid()
      reads this
    {
      WellFormed(State())
    }

    constructor ()
      ensures State() == Fresh() && Valid()
    {
      refs := map[];
      nextId := FirstRef;
    }

    /** The ref for `identifier`, allocating one on first use. */
    method GetRef(identifier: string) returns (ref: int)
      modifies this
      ensures (State(), ref) == Resolve(old(State()), identifier)
      ensures old(Valid()) ==> Valid()
    {
      var key := Upper(identifier);
      if key in refs {
        return refs[key];
      }
      ref := nextId;
      nextId := nextId + 1;
      refs := refs[key := ref];
      if old(Valid()) {
        ResolveKeepsWellFormed(old(State()), identifier);
      }
    }
  }
}
