/**
 * `utils/name_mapper.py`: the catalog file name normalisation. An exact key
 * lookup in the table, then a first-match search that ignores case and
 * spaces, and otherwise the name itself.
 */
module NameMapper {
  import opened Wrappers
  import opened Text
  import opened CatalogConfig
  import opened CatalogKeys

  /** A name table: (original, mapped) pairs in insertion order. */
  type Table = seq<(string, string)>

  /** Entry `i` is the first one whose key is exactly `name`. */
  predicate FirstExactAt(table: Table, name: string, i: int) {
    0 <= i < |table| && table[i].0 == name && forall j :: 0 <= j < i ==> table[j].0 != name
  }

  /** Entry `i` is the first one whose flexible key is `key`. */
  predicate FirstFlexAt(table: Table, key: string, i: int) {
    0 <= i < |table| && Flex(table[i].0) == key && forall j :: 0 <= j < i ==> Flex(table[j].0) != key
  }

  predicate NoExact(table: Table, name: string) {
    forall j :: 0 <= j < |table| ==> table[j].0 != name
  }

  predicate NoFlex(table: Table, key: string) {
    forall j :: 0 <= j < |table| ==> Flex(table[j].0) != key
  }

  /** `filename in CATALOG_NAME_MAPPING`: the position of the key, if any. */
  function ExactIndex(table: Table, name: string): (r: Option<nat>)
    ensures r.Some? ==> r.value < |table| && table[r.value].0 == name
  {
    if table == [] then None
    else if table[0].0 == name then Some(0)
    else match ExactIndex(table[1..], name)
      case None => None
      case Some(i) => Some(i + 1)
  }

  /** The exact search finds the first key equal to the name, or proves
      there is none. */
  lemma {:induction false} ExactIndexSpec(table: Table, name: string)
    ensures ExactIndex(table, name).Some? ==> FirstExactAt(table, name, ExactIndex(table, name).value)
    ensures ExactIndex(table, name).None? ==> NoExact(table, name)
  {
    if table != [] && table[0].0 != name {
      ExactIndexSpec(table[1..], name);
      assert forall j :: 1 <= j < |table| ==> table[j].0 == table[1..][j - 1].0;
    }
  }

  /** The loop over `CATALOG_NAME_MAPPING.items()` comparing
      `original.lower().replace(" ", "")` with the flexible input: the first
      position that matches, if any. */
  function FlexIndex(table: Table, key: string): (r: Option<nat>)
    ensures r.Some? ==> r.value < |table| && Flex(table[r.value].0) == key
  {
    if table == [] then None
    else if Flex(table[0].0) == key then Some(0)
    else match FlexIndex(table[1..], key)
      case None => None
      case Some(i) => Some(i + 1)
  }

  /** The flexible search finds the first key matching up to case and
      spaces, or proves there is none. */
  lemma {:induction false} FlexIndexSpec(table: Table, key: string)
    ensures FlexIndex(table, key).Some? ==> FirstFlexAt(table, key, FlexIndex(table, key).value)
    ensures FlexIndex(table, key).None? ==> NoFlex(table, key)
  {
    if table != [] && Flex(table[0].0) != key {
      FlexIndexSpec(table[1..], key);
      assert forall j :: 1 <= j < |table| ==> table[j].0 == table[1..][j - 1].0;
    }
  }

  /** `normalize_catalog_name` over a given table. */
  function NormalizeWith(table: Table, filename: string): string {
    match ExactIndex(table, filename)
    case Some(i) => table[i].1
    case None =>
      match FlexIndex(table, Flex(filename))
      case Some(i) => table[i].1
      case None => filename
  }

  /** What `normalize_catalog_name` answers: an exact key gives its value,
      otherwise the first flexible match gives its value, otherwise the
      name itself; so the answer is the name or one of the table's values. */
  lemma NormalizeWithSpec(table: Table, filename: string)
    ensures forall i :: FirstExactAt(table, filename, i) ==> NormalizeWith(table, filename) == table[i].1
    ensures NoExact(table, filename) ==>
              forall i :: FirstFlexAt(table, Flex(filename), i) ==> NormalizeWith(table, filename) == table[i].1
    ensures NoExact(table, filename) && NoFlex(table, Flex(filename)) ==> NormalizeWith(table, filename) == filename
    ensures NormalizeWith(table, filename) == filename ||
            exists i :: 0 <= i < |table| && NormalizeWith(table, filename) == table[i].1
  {
    ExactIndexSpec(table, filename);
    FlexIndexSpec(table, Flex(filename));
  }

  /** `normalize_catalog_name` on `CATALOG_NAME_MAPPING`. */
  function Normalize(filename: string): string {
    NormalizeWith(CatalogNameMapping, filename)
  }

  /** An exact key is mapped to its own value. */
  lemma NormalizeKey(i: nat)
    requires i < |CatalogNameMapping|
    ensures Normalize(CatalogNameMapping[i].0) == CatalogNameMapping[i].1
  {
    KeysDistinct();
    NormalizeWithSpec(CatalogNameMapping, CatalogNameMapping[i].0);
    assert FirstExactAt(CatalogNameMapping, CatalogNameMapping[i].0, i);
  }

  /** A key whose entry maps it to itself comes back unchanged, like an
      unmapped name. */
  lemma NormalizeIdentityEntry(i: nat)
    requires i < |CatalogNameMapping| && i in IdentityEntries
    ensures Normalize(CatalogNameMapping[i].0) == CatalogNameMapping[i].0
  {
    NormalizeKey(i);
    IdentityEntriesExact();
  }

  /** A name that is not a key but equals key `i` up to case and spaces is
      mapped to value `i`: no other key can match first. */
  lemma NormalizeFlexible(filename: string, i: nat)
    requires i < |CatalogNameMapping|
    requires NoExact(CatalogNameMapping, filename)
    requires Flex(filename) == Flex(CatalogNameMapping[i].0)
    ensures Normalize(filename) == CatalogNameMapping[i].1
  {
    FlexKeysUnique();
    NormalizeWithSpec(CatalogNameMapping, filename);
    assert FirstFlexAt(CatalogNameMapping, Flex(filename), i);
  }

  /** A name that matches no key either way is returned unchanged. */
  lemma NormalizeUnmapped(filename: string)
    requires NoExact(CatalogNameMapping, filename)
    requires NoFlex(CatalogNameMapping, Flex(filename))
    ensures Normalize(filename) == filename
  {
    NormalizeWithSpec(CatalogNameMapping, filename);
  }

  /** `soldadura.pdf` equals `SOLDADURA.pdf` up to case. */
  lemma SoldaduraFlex(lower: string, upper: string)
    requires lower == "soldadura.pdf" && upper == "SOLDADURA.pdf"
    ensures Flex(lower) == Flex(upper) && lower != upper
  {
    assert Lowered(upper) == lower;
    FlexWord(upper);
    FlexWord(lower);
    assert upper[0] != lower[0];
  }

  /** A name that equals a key up to case and spaces, without being that
      key, is no key at all. */
  lemma FlexTwinIsNoKey(filename: string, i: nat)
    requires i < |CatalogNameMapping|
    requires Flex(filename) == Flex(CatalogNameMapping[i].0)
    requires filename != CatalogNameMapping[i].0
    ensures NoExact(CatalogNameMapping, filename)
  {
    FlexKeysUnique();
    forall j | 0 <= j < |CatalogNameMapping|
      ensures CatalogNameMapping[j].0 != filename
    {
      if j != i {
        assert Flex(CatalogNameMapping[j].0) != Flex(CatalogNameMapping[i].0);
      }
    }
  }

  /** The lower-case `soldadura.pdf` resolves through the flexible search. */
  lemma NormalizeSoldaduraLowercase()
    ensures Normalize("soldadura.pdf") == "SOLDADURA.pdf"
  {
    var lower := "soldadura.pdf";
    assert CatalogNameMapping[24] == ("SOLDADURA.pdf", "SOLDADURA.pdf");
    SoldaduraFlex(lower, CatalogNameMapping[24].0);
    FlexTwinIsNoKey(lower, 24);
    NormalizeFlexible(lower, 24);
  }

  /** No value of the table contains `sub` when `sub` has a space, so the
      mapper produces such a string only by returning its input. */
  lemma NormalizeIntroducesNoSpacedText(filename: string, sub: string)
    requires !NoSpace(sub)
    requires Contains(Normalize(filename), sub)
    ensures Normalize(filename) == filename
  {
    ValuesWithoutSpaces();
    NormalizeWithSpec(CatalogNameMapping, filename);
    var r := Normalize(filename);
    if r != filename {
      var i :| 0 <= i < |CatalogNameMapping| && r == CatalogNameMapping[i].1;
      NoSpaceExcludes(r, sub);
    }
  }

  /** The dictionary a table denotes; a later entry overrides an earlier one. */
  function ToMap(table: Table): (m: map<string, string>)
    ensures forall k :: k in m <==> exists i :: 0 <= i < |table| && table[i].0 == k
  {
    if table == [] then map[]
    else ToMap(table[..|table| - 1])[table[|table| - 1].0 := table[|table| - 1].1]
  }

  /** With distinct keys, the dictionary holds every entry's value. */
  lemma {:induction false} ToMapEntries(table: Table)
    requires forall i, j :: 0 <= i < j < |table| ==> table[i].0 != table[j].0
    ensures forall i :: 0 <= i < |table| ==> table[i].0 in ToMap(table) && ToMap(table)[table[i].0] == table[i].1
  {
    if table != [] {
      ToMapEntries(table[..|table| - 1]);
    }
  }

  /** `get_all_mapped_names`: a copy of the table as a dictionary. The model's
      map is a value, so a caller changing its copy cannot change the table. */
  function GetAllMappedNames(): (m: map<string, string>)
    ensures forall k :: k in m <==> exists i :: 0 <= i < |CatalogNameMapping| && CatalogNameMapping[i].0 == k
    ensures forall i :: 0 <= i < |CatalogNameMapping| ==> m[CatalogNameMapping[i].0] == CatalogNameMapping[i].1
  {
    KeysDistinct();
    ToMapEntries(CatalogNameMapping);
    ToMap(CatalogNameMapping)
  }
}
