/**
 * The key catalog: the table from canonical upper-case key names to key codes,
 * and its category tables (function, special, input-control, standalone and
 * character keys).  Its contents are not part of this model; every operation
 * takes the catalog as a value.
 */
module KeyCatalog {

  datatype Catalog = Catalog(
    codes: map<string, int>,
    functionKeys: set<string>,
    specialKeys: set<string>,
    inputControlKeys: set<string>,
    standaloneKeys: set<string>,
    characterKeys: set<string>)

  /** The catalog knows every name in `names`. */
  predicate Knows(c: Catalog, names: set<string>) {
    names <= c.codes.Keys
  }

  /** Every category table only lists names the catalog has codes for. */
  predicate CategoriesKnown(c: Catalog) {
    && c.functionKeys <= c.codes.Keys
    && c.specialKeys <= c.codes.Keys
    && c.inputControlKeys <= c.codes.Keys
    && c.standaloneKeys <= c.codes.Keys
    && c.characterKeys <= c.codes.Keys
  }
}
