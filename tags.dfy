/**
 * The tag classifier of the HTML scanner: the closed enumeration of tag types,
 * the `Tag` value (a type plus the name of a custom element), the name table,
 * equality, the void test and the nesting rules used for implicit end tags.
 */
module Tags {

  /** A C `char` of a name buffer or of the serialized state: one 8-bit code unit. */
  type Byte = c: char | c as int < 256

  /**
   * The numeric value of a `TagType`. The enumerators are 0..126 in declaration
   * order; the range is a whole byte because a type read back from a serialized
   * buffer can hold any byte value.
   */
  type TagType = t: int | 0 <= t < 256

  /** Longest custom tag name that a `Tag` stores (TREE_SITTER_HTML_MAX_CUSTOM_TAG_NAME_LENGTH). */
  const MaxCustomTagNameLength := 255

  /** The stored bytes of a custom tag name (the first `custom_tag_name_length` bytes). */
  type Name = s: seq<Byte> | |s| <= MaxCustomTagNameLength

  // ---------------------------------------------------------------------------
  // The enumeration and its name table
  // ---------------------------------------------------------------------------

  // Names of the void tags, in declaration order, in rows; their types are 0..22.
  const VoidRow0: seq<string> := [
    "AREA", "BASE", "BASEFONT", "BGSOUND", "BR", "COL", "COMMAND", "EMBED", "FRAME",
    "HR", "IMAGE", "IMG"
  ]
  const VoidRow1: seq<string> := [
    "INPUT", "ISINDEX", "KEYGEN", "LINK", "MENUITEM", "META", "NEXTID", "PARAM", "SOURCE",
    "TRACK", "WBR"
  ]

  const VoidTagNames: seq<string> := VoidRow0 + VoidRow1

  // Names of the container tags, in declaration order, in rows; their types are 24..125.
  const ContainerRow0: seq<string> := [
    "A", "ABBR", "ADDRESS", "ARTICLE", "ASIDE", "AUDIO", "B", "BDI", "BDO",
    "BLOCKQUOTE", "BODY", "BUTTON"
  ]
  const ContainerRow1: seq<string> := [
    "CANVAS", "CAPTION", "CITE", "CODE", "COLGROUP", "DATA", "DATALIST", "DD", "DEL",
    "DETAILS", "DFN", "DIALOG"
  ]
  const ContainerRow2: seq<string> := [
    "DIV", "DL", "DT", "EM", "FIELDSET", "FIGCAPTION", "FIGURE", "FOOTER", "FORM",
    "H1", "H2", "H3"
  ]
  const ContainerRow3: seq<string> := [
    "H4", "H5", "H6", "HEAD", "HEADER", "HGROUP", "HTML", "I", "IFRAME",
    "INS", "KBD", "LABEL"
  ]
  const ContainerRow4: seq<string> := [
    "LEGEND", "LI", "MAIN", "MAP", "MARK", "MATH", "MENU", "METER", "NAV",
    "NOSCRIPT", "OBJECT", "OL"
  ]
  const ContainerRow5: seq<string> := [
    "OPTGROUP", "OPTION", "OUTPUT", "P", "PICTURE", "PRE", "PROGRESS", "Q", "RB",
    "RP", "RT", "RTC"
  ]
  const ContainerRow6: seq<string> := [
    "RUBY", "S", "SAMP", "SCRIPT", "SECTION", "SELECT", "SLOT", "SMALL", "SPAN",
    "STRONG", "STYLE", "SUB"
  ]
  const ContainerRow7: seq<string> := [
    "SUMMARY", "SUP", "SVG", "TABLE", "TBODY", "TD", "TEMPLATE", "TEXTAREA", "TFOOT",
    "TH", "THEAD", "TIME"
  ]
  const ContainerRow8: seq<string> := [
    "TITLE", "TR", "U", "UL", "VAR", "VIDEO"
  ]

  const ContainerTagNames: seq<string> := ContainerRow0 + ContainerRow1 + ContainerRow2 + ContainerRow3 + ContainerRow4 + ContainerRow5 + ContainerRow6 + ContainerRow7 + ContainerRow8

  /** The names of TAG_NAME_ENTRIES: void tags first, then container tags. */
  const TagNames: seq<string> := VoidTagNames + ContainerTagNames

  /** The sentinel between the void and the container enumerators; also the type of a reset tag. */
  const END_OF_VOID_TAGS: TagType := 23
  /** The last enumerator: an element whose name is not in the table. */
  const CUSTOM: TagType := 126

  // The enumerators that the classifier and the scanner refer to by name.
  const COL: TagType := 5
  const HR: TagType := 9
  const ADDRESS: TagType := 26
  const ARTICLE: TagType := 27
  const ASIDE: TagType := 28
  const BLOCKQUOTE: TagType := 33
  const COLGROUP: TagType := 40
  const DD: TagType := 43
  const DETAILS: TagType := 45
  const DIV: TagType := 48
  const DL: TagType := 49
  const DT: TagType := 50
  const FIELDSET: TagType := 52
  const FIGCAPTION: TagType := 53
  const FIGURE: TagType := 54
  const FOOTER: TagType := 55
  const FORM: TagType := 56
  const H1: TagType := 57
  const H2: TagType := 58
  const H3: TagType := 59
  const H4: TagType := 60
  const H5: TagType := 61
  const H6: TagType := 62
  const HEADER: TagType := 64
  const LI: TagType := 73
  const MAIN: TagType := 74
  const NAV: TagType := 80
  const OL: TagType := 83
  const OPTGROUP: TagType := 84
  const P: TagType := 87
  const PRE: TagType := 89
  const RB: TagType := 92
  const RP: TagType := 93
  const RT: TagType := 94
  const SCRIPT: TagType := 99
  const SECTION: TagType := 100
  const STYLE: TagType := 106
  const TD: TagType := 113
  const TEMPLATE: TagType := 114
  const TH: TagType := 117
  const TR: TagType := 121
  const UL: TagType := 123

  /** The type that TAG_NAME_ENTRIES pairs with its `i`-th name. */
  function EntryType(i: nat): (t: TagType)
    requires i < |TagNames|
    ensures t != END_OF_VOID_TAGS && t < CUSTOM
    ensures t < END_OF_VOID_TAGS <==> i < |VoidTagNames|
  {
    if i < |VoidTagNames| then i else i + 1
  }

  /** The name of an enumerator other than END_OF_VOID_TAGS and CUSTOM. */
  function TypeName(t: TagType): string
    requires t < END_OF_VOID_TAGS || END_OF_VOID_TAGS < t < CUSTOM
  {
    if t < END_OF_VOID_TAGS then TagNames[t] else TagNames[t - 1]
  }

  // ---------------------------------------------------------------------------
  // Tags
  // ---------------------------------------------------------------------------

  /** A `Tag`: its type and, for a custom element, its (upper-cased, capped) name. */
  datatype Tag = Tag(kind: TagType, customName: Name)

  /** tag_reset: the sentinel tag, of type END_OF_VOID_TAGS with an empty name. */
  function TagReset(): (t: Tag)
    ensures t.kind == END_OF_VOID_TAGS && |t.customName| == 0
    ensures !IsVoid(t) && t.kind != CUSTOM
  {
    Tag(END_OF_VOID_TAGS, [])
  }

  /** tag_make: a reset tag whose type is then set to `kind`. */
  function TagMake(kind: TagType): (t: Tag)
    ensures t.kind == kind && t.customName == []
  {
    TagReset().(kind := kind)
  }

  /**
   * tag_set_custom_name: stores at most MaxCustomTagNameLength bytes of `name`
   * and leaves the type alone.
   */
  function SetCustomName(tag: Tag, name: seq<Byte>): (r: Tag)
    ensures r.kind == tag.kind
    ensures |r.customName| == if |name| <= MaxCustomTagNameLength then |name| else MaxCustomTagNameLength
    ensures r.customName == name[..|r.customName|]
  {
    var length := if |name| > MaxCustomTagNameLength then MaxCustomTagNameLength else |name|;
    tag.(customName := name[..length])
  }

  /**
   * The strcmp loop of tag_for_name over a name table: the index of the first
   * entry from `i` on that is `name`, or |table| when there is none.
   */
  function FindEntry(table: seq<string>, name: seq<Byte>, i: nat): (r: nat)
    requires i <= |table|
    ensures i <= r <= |table|
    ensures r < |table| ==> table[r] == name
    ensures forall j | i <= j < r :: table[j] != name
    decreases |table| - i
  {
    if i == |table| then i
    else if table[i] == name then i
    else FindEntry(table, name, i + 1)
  }

  /**
   * tag_for_name: the table's type for a name that is byte-for-byte one of its
   * entries (the comparison is case-sensitive), otherwise a CUSTOM tag that
   * keeps the name capped to MaxCustomTagNameLength bytes.
   * `name` is the content of the C string, without its terminator.
   */
  function TagForName(name: seq<Byte>): (t: Tag)
    ensures Canonical(t)
    ensures t.kind == CUSTOM <==> name !in TagNames
    ensures t.kind == CUSTOM ==>
      t.customName == if |name| <= MaxCustomTagNameLength then name else name[..MaxCustomTagNameLength]
  {
    FindEntryFinds(TagNames, name);
    var i := FindEntry(TagNames, name, 0);
    if i < |TagNames| then TagMake(EntryType(i))
    else SetCustomName(TagMake(CUSTOM), name)
  }

  /**
   * tag_is_void: the type is one of the enumerators before END_OF_VOID_TAGS,
   * which number the void elements' names at the head of the name table
   * (VoidExactlyTheVoidEntries). Neither a custom element nor the marker itself is void.
   */
  function IsVoid(tag: Tag): (r: bool)
    ensures r ==> tag.kind != CUSTOM
    ensures tag.kind == END_OF_VOID_TAGS ==> !r
  {
    tag.kind < END_OF_VOID_TAGS
  }

  /** tag_names_equal: same stored length and the same bytes. */
  function NamesEqual(left: Tag, right: Tag): (r: bool)
    ensures r <==> left.customName == right.customName
  {
    |left.customName| == |right.customName| && left.customName == right.customName
  }

  /**
   * tag_equals: different types are never equal, two tags of one non-CUSTOM
   * type are equal whatever their name bytes, and two CUSTOM tags are equal
   * exactly when they are the same value (EqualsCustom).
   */
  function Equals(left: Tag, right: Tag): (r: bool)
    ensures left.kind != right.kind ==> !r
    ensures left.kind == right.kind && left.kind != CUSTOM ==> r
  {
    left.kind == right.kind && (left.kind != CUSTOM || NamesEqual(left, right))
  }

  /** A CUSTOM tag is equal to another exactly when the two are the same value. */
  lemma EqualsCustom(left: Tag, right: Tag)
    requires left.kind == CUSTOM
    ensures Equals(left, right) <==> left == right
  {
  }

  /** TAG_TYPES_NOT_ALLOWED_IN_PARAGRAPHS. */
  const NotAllowedInParagraph: seq<TagType> := [
    ADDRESS, ARTICLE, ASIDE, BLOCKQUOTE, DETAILS, DIV, DL,
    FIELDSET, FIGCAPTION, FIGURE, FOOTER, FORM, H1, H2,
    H3, H4, H5, H6, HEADER, HR, MAIN,
    NAV, OL, P, PRE, SECTION
  ]

  /** The loop of tag_type_allowed_in_paragraph over a list of types, from entry `i` on. */
  function AllowedFrom(list: seq<TagType>, kind: TagType, i: nat): (r: bool)
    requires i <= |list|
    ensures r <==> forall j | i <= j < |list| :: list[j] != kind
    decreases |list| - i
  {
    i == |list| || (list[i] != kind && AllowedFrom(list, kind, i + 1))
  }

  /** tag_type_allowed_in_paragraph: false exactly for the 26 listed types. */
  function AllowedInParagraph(kind: TagType): (r: bool)
    ensures r <==> kind !in NotAllowedInParagraph
  {
    AllowedFrom(NotAllowedInParagraph, kind, 0)
  }

  /** tag_can_contain: may an open `parent` element hold a `child` start tag? */
  function CanContain(parent: Tag, child: Tag): (r: bool)
    ensures parent.kind !in {LI, DT, DD, P, COLGROUP, RB, RT, RP, OPTGROUP, TR, TD, TH} ==> r
    ensures parent.kind == P ==> (r <==> child.kind !in NotAllowedInParagraph)
    ensures parent.kind != COLGROUP && child.kind == CUSTOM ==> r
  {
    var p := parent.kind;
    var c := child.kind;
    if p == LI then c != LI
    else if p == DT || p == DD then c != DT && c != DD
    else if p == P then AllowedInParagraph(c)
    else if p == COLGROUP then c == COL
    else if p == RB || p == RT || p == RP then c != RB && c != RT && c != RP
    else if p == OPTGROUP then c != OPTGROUP
    else if p == TR then c != TR
    else if p == TD || p == TH then c != TD && c != TH && c != TR
    else true
  }

  /** A tag as the classifier builds it: only a CUSTOM tag carries a name. */
  predicate Canonical(tag: Tag)
  {
    tag.kind != CUSTOM ==> tag.customName == []
  }

  // ---------------------------------------------------------------------------
  // The name table has no duplicates
  // ---------------------------------------------------------------------------

  /** Strict lexicographic order on names. */
  predicate NameLess(a: string, b: string)
  {
    |b| > 0 && (|a| == 0 || a[0] < b[0] || (a[0] == b[0] && NameLess(a[1..], b[1..])))
  }

  predicate StrictlySorted(s: seq<string>)
  {
    forall i | 0 <= i < |s| - 1 :: NameLess(s[i], s[i + 1])
  }

  lemma {:induction false} NameLessIrreflexive(a: string)
    ensures !NameLess(a, a)
  {
    if |a| > 0 {
      NameLessIrreflexive(a[1..]);
    }
  }

  lemma {:induction false} NameLessTransitive(a: string, b: string, c: string)
    requires NameLess(a, b) && NameLess(b, c)
    ensures NameLess(a, c)
  {
    if |a| > 0 && a[0] == b[0] && b[0] == c[0] {
      NameLessTransitive(a[1..], b[1..], c[1..]);
    }
  }

  lemma {:induction false} SortedLess(s: seq<string>, i: nat, j: nat)
    requires StrictlySorted(s) && i < j < |s|
    ensures NameLess(s[i], s[j])
    decreases j - i
  {
    if i + 1 < j {
      SortedLess(s, i + 1, j);
      NameLessTransitive(s[i], s[i + 1], s[j]);
    }
  }

  lemma SortedAppend(a: seq<string>, b: seq<string>)
    requires StrictlySorted(a) && StrictlySorted(b)
    requires |a| > 0 && |b| > 0 && NameLess(a[|a| - 1], b[0])
    ensures StrictlySorted(a + b)
  {
    forall i | 0 <= i < |a + b| - 1
      ensures NameLess((a + b)[i], (a + b)[i + 1])
    {
      if i < |a| - 1 {
        assert (a + b)[i] == a[i] && (a + b)[i + 1] == a[i + 1];
      } else if i == |a| - 1 {
        assert (a + b)[i] == a[|a| - 1] && (a + b)[i + 1] == b[0];
      } else {
        assert (a + b)[i] == b[i - |a|] && (a + b)[i + 1] == b[i - |a| + 1];
      }
    }
  }

  /** A name strictly between s[k-1] and s[k] of a sorted sequence is not in it. */
  lemma NotInSorted(s: seq<string>, v: string, k: nat)
    requires StrictlySorted(s) && k <= |s|
    requires k > 0 ==> NameLess(s[k - 1], v)
    requires k < |s| ==> NameLess(v, s[k])
    ensures v !in s
  {
    forall j | 0 <= j < |s|
      ensures s[j] != v
    {
      if j < k - 1 {
        SortedLess(s, j, k - 1);
        NameLessTransitive(s[j], s[k - 1], v);
        NameLessIrreflexive(v);
      } else if j == k - 1 {
        NameLessIrreflexive(v);
      } else if j == k {
        NameLessIrreflexive(v);
      } else {
        SortedLess(s, k, j);
        NameLessTransitive(v, s[k], s[j]);
        NameLessIrreflexive(v);
      }
    }
  }

  lemma VoidRow0Sorted()
    ensures StrictlySorted(VoidRow0)
  {
    assert NameLess(VoidRow0[0], VoidRow0[1]);
    assert NameLess(VoidRow0[1], VoidRow0[2]);
    assert NameLess(VoidRow0[2], VoidRow0[3]);
    assert NameLess(VoidRow0[3], VoidRow0[4]);
    assert NameLess(VoidRow0[4], VoidRow0[5]);
    assert NameLess(VoidRow0[5], VoidRow0[6]);
    assert NameLess(VoidRow0[6], VoidRow0[7]);
    assert NameLess(VoidRow0[7], VoidRow0[8]);
    assert NameLess(VoidRow0[8], VoidRow0[9]);
    assert NameLess(VoidRow0[9], VoidRow0[10]);
    assert NameLess(VoidRow0[10], VoidRow0[11]);
  }

  lemma VoidRow1Sorted()
    ensures StrictlySorted(VoidRow1)
  {
    assert NameLess(VoidRow1[0], VoidRow1[1]);
    assert NameLess(VoidRow1[1], VoidRow1[2]);
    assert NameLess(VoidRow1[2], VoidRow1[3]);
    assert NameLess(VoidRow1[3], VoidRow1[4]);
    assert NameLess(VoidRow1[4], VoidRow1[5]);
    assert NameLess(VoidRow1[5], VoidRow1[6]);
    assert NameLess(VoidRow1[6], VoidRow1[7]);
    assert NameLess(VoidRow1[7], VoidRow1[8]);
    assert NameLess(VoidRow1[8], VoidRow1[9]);
    assert NameLess(VoidRow1[9], VoidRow1[10]);
  }

  lemma VoidTagNamesSorted()
    ensures StrictlySorted(VoidTagNames)
  {
    VoidRow0Sorted();
    VoidRow1Sorted();
    assert NameLess(VoidRow0[11], VoidRow1[0]);
    SortedAppend(VoidRow0, VoidRow1);
  }

  lemma ContainerRow0Sorted()
    ensures StrictlySorted(ContainerRow0)
  {
    assert NameLess(ContainerRow0[0], ContainerRow0[1]);
    assert NameLess(ContainerRow0[1], ContainerRow0[2]);
    assert NameLess(ContainerRow0[2], ContainerRow0[3]);
    assert NameLess(ContainerRow0[3], ContainerRow0[4]);
    assert NameLess(ContainerRow0[4], ContainerRow0[5]);
    assert NameLess(ContainerRow0[5], ContainerRow0[6]);
    assert NameLess(ContainerRow0[6], ContainerRow0[7]);
    assert NameLess(ContainerRow0[7], ContainerRow0[8]);
    assert NameLess(ContainerRow0[8], ContainerRow0[9]);
    assert NameLess(ContainerRow0[9], ContainerRow0[10]);
    assert NameLess(ContainerRow0[10], ContainerRow0[11]);
  }

  lemma ContainerRow1Sorted()
    ensures StrictlySorted(ContainerRow1)
  {
    assert NameLess(ContainerRow1[0], ContainerRow1[1]);
    assert NameLess(ContainerRow1[1], ContainerRow1[2]);
    assert NameLess(ContainerRow1[2], ContainerRow1[3]);
    assert NameLess(ContainerRow1[3], ContainerRow1[4]);
    assert NameLess(ContainerRow1[4], ContainerRow1[5]);
    assert NameLess(ContainerRow1[5], ContainerRow1[6]);
    assert NameLess(ContainerRow1[6], ContainerRow1[7]);
    assert NameLess(ContainerRow1[7], ContainerRow1[8]);
    assert NameLess(ContainerRow1[8], ContainerRow1[9]);
    assert NameLess(ContainerRow1[9], ContainerRow1[10]);
    assert NameLess(ContainerRow1[10], ContainerRow1[11]);
  }

  lemma ContainerRow2Sorted()
    ensures StrictlySorted(ContainerRow2)
  {
    assert NameLess(ContainerRow2[0], ContainerRow2[1]);
    assert NameLess(ContainerRow2[1], ContainerRow2[2]);
    assert NameLess(ContainerRow2[2], ContainerRow2[3]);
    assert NameLess(ContainerRow2[3], ContainerRow2[4]);
    assert NameLess(ContainerRow2[4], ContainerRow2[5]);
    assert NameLess(ContainerRow2[5], ContainerRow2[6]);
    assert NameLess(ContainerRow2[6], ContainerRow2[7]);
    assert NameLess(ContainerRow2[7], ContainerRow2[8]);
    assert NameLess(ContainerRow2[8], ContainerRow2[9]);
    assert NameLess(ContainerRow2[9], ContainerRow2[10]);
    assert NameLess(ContainerRow2[10], ContainerRow2[11]);
  }

  lemma ContainerRow3Sorted()
    ensures StrictlySorted(ContainerRow3)
  {
    assert NameLess(ContainerRow3[0], ContainerRow3[1]);
    assert NameLess(ContainerRow3[1], ContainerRow3[2]);
    assert NameLess(ContainerRow3[2], ContainerRow3[3]);
    assert NameLess(ContainerRow3[3], ContainerRow3[4]);
    assert NameLess(ContainerRow3[4], ContainerRow3[5]);
    assert NameLess(ContainerRow3[5], ContainerRow3[6]);
    assert NameLess(ContainerRow3[6], ContainerRow3[7]);
    assert NameLess(ContainerRow3[7], ContainerRow3[8]);
    assert NameLess(ContainerRow3[8], ContainerRow3[9]);
    assert NameLess(ContainerRow3[9], ContainerRow3[10]);
    assert NameLess(ContainerRow3[10], ContainerRow3[11]);
  }

  lemma ContainerRow4Sorted()
    ensures StrictlySorted(ContainerRow4)
  {
    assert NameLess(ContainerRow4[0], ContainerRow4[1]);
    assert NameLess(ContainerRow4[1], ContainerRow4[2]);
    assert NameLess(ContainerRow4[2], ContainerRow4[3]);
    assert NameLess(ContainerRow4[3], ContainerRow4[4]);
    assert NameLess(ContainerRow4[4], ContainerRow4[5]);
    assert NameLess(ContainerRow4[5], ContainerRow4[6]);
    assert NameLess(ContainerRow4[6], ContainerRow4[7]);
    assert NameLess(ContainerRow4[7], ContainerRow4[8]);
    assert NameLess(ContainerRow4[8], ContainerRow4[9]);
    assert NameLess(ContainerRow4[9], ContainerRow4[10]);
    assert NameLess(ContainerRow4[10], ContainerRow4[11]);
  }

  lemma ContainerRow5Sorted()
    ensures StrictlySorted(ContainerRow5)
  {
    assert NameLess(ContainerRow5[0], ContainerRow5[1]);
    assert NameLess(ContainerRow5[1], ContainerRow5[2]);
    assert NameLess(ContainerRow5[2], ContainerRow5[3]);
    assert NameLess(ContainerRow5[3], ContainerRow5[4]);
    assert NameLess(ContainerRow5[4], ContainerRow5[5]);
    assert NameLess(ContainerRow5[5], ContainerRow5[6]);
    assert NameLess(ContainerRow5[6], ContainerRow5[7]);
    assert NameLess(ContainerRow5[7], ContainerRow5[8]);
    assert NameLess(ContainerRow5[8], ContainerRow5[9]);
    assert NameLess(ContainerRow5[9], ContainerRow5[10]);
    assert NameLess(ContainerRow5[10], ContainerRow5[11]);
  }

  lemma ContainerRow6Sorted()
    ensures StrictlySorted(ContainerRow6)
  {
    assert NameLess(ContainerRow6[0], ContainerRow6[1]);
    assert NameLess(ContainerRow6[1], ContainerRow6[2]);
    assert NameLess(ContainerRow6[2], ContainerRow6[3]);
    assert NameLess(ContainerRow6[3], ContainerRow6[4]);
    assert NameLess(ContainerRow6[4], ContainerRow6[5]);
    assert NameLess(ContainerRow6[5], ContainerRow6[6]);
    assert NameLess(ContainerRow6[6], ContainerRow6[7]);
    assert NameLess(ContainerRow6[7], ContainerRow6[8]);
    assert NameLess(ContainerRow6[8], ContainerRow6[9]);
    assert NameLess(ContainerRow6[9], ContainerRow6[10]);
    assert NameLess(ContainerRow6[10], ContainerRow6[11]);
  }

  lemma ContainerRow7Sorted()
    ensures StrictlySorted(ContainerRow7)
  {
    assert NameLess(ContainerRow7[0], ContainerRow7[1]);
    assert NameLess(ContainerRow7[1], ContainerRow7[2]);
    assert NameLess(ContainerRow7[2], ContainerRow7[3]);
    assert NameLess(ContainerRow7[3], ContainerRow7[4]);
    assert NameLess(ContainerRow7[4], ContainerRow7[5]);
    assert NameLess(ContainerRow7[5], ContainerRow7[6]);
    assert NameLess(ContainerRow7[6], ContainerRow7[7]);
    assert NameLess(ContainerRow7[7], ContainerRow7[8]);
    assert NameLess(ContainerRow7[8], ContainerRow7[9]);
    assert NameLess(ContainerRow7[9], ContainerRow7[10]);
    assert NameLess(ContainerRow7[10], ContainerRow7[11]);
  }

  lemma ContainerRow8Sorted()
    ensures StrictlySorted(ContainerRow8)
  {
    assert NameLess(ContainerRow8[0], ContainerRow8[1]);
    assert NameLess(ContainerRow8[1], ContainerRow8[2]);
    assert NameLess(ContainerRow8[2], ContainerRow8[3]);
    assert NameLess(ContainerRow8[3], ContainerRow8[4]);
    assert NameLess(ContainerRow8[4], ContainerRow8[5]);
  }

  lemma ContainerTagNamesSorted()
    ensures StrictlySorted(ContainerTagNames)
  {
    ContainerRow0Sorted();
    ContainerRow1Sorted();
    assert NameLess(ContainerRow0[11], ContainerRow1[0]);
    SortedAppend(ContainerRow0, ContainerRow1);
    ContainerRow2Sorted();
    assert NameLess(ContainerRow1[11], ContainerRow2[0]);
    SortedAppend(ContainerRow0 + ContainerRow1, ContainerRow2);
    ContainerRow3Sorted();
    assert NameLess(ContainerRow2[11], ContainerRow3[0]);
    SortedAppend(ContainerRow0 + ContainerRow1 + ContainerRow2, ContainerRow3);
    ContainerRow4Sorted();
    assert NameLess(ContainerRow3[11], ContainerRow4[0]);
    SortedAppend(ContainerRow0 + ContainerRow1 + ContainerRow2 + ContainerRow3, ContainerRow4);
    ContainerRow5Sorted();
    assert NameLess(ContainerRow4[11], ContainerRow5[0]);
    SortedAppend(ContainerRow0 + ContainerRow1 + ContainerRow2 + ContainerRow3 + ContainerRow4, ContainerRow5);
    ContainerRow6Sorted();
    assert NameLess(ContainerRow5[11], ContainerRow6[0]);
    SortedAppend(ContainerRow0 + ContainerRow1 + ContainerRow2 + ContainerRow3 + ContainerRow4 + ContainerRow5, ContainerRow6);
    ContainerRow7Sorted();
    assert NameLess(ContainerRow6[11], ContainerRow7[0]);
    SortedAppend(ContainerRow0 + ContainerRow1 + ContainerRow2 + ContainerRow3 + ContainerRow4 + ContainerRow5 + ContainerRow6, ContainerRow7);
    ContainerRow8Sorted();
    assert NameLess(ContainerRow7[11], ContainerRow8[0]);
    SortedAppend(ContainerRow0 + ContainerRow1 + ContainerRow2 + ContainerRow3 + ContainerRow4 + ContainerRow5 + ContainerRow6 + ContainerRow7, ContainerRow8);
  }

  lemma VoidNamesNotContainerNames0(i: nat)
    requires 0 <= i < 2
    ensures VoidTagNames[i] !in ContainerTagNames
  {
    ContainerTagNamesSorted();
    assert VoidTagNames[i] == VoidRow0[i - 0];
    if i == 0 {
      assert ContainerTagNames[2] == ContainerRow0[2];
      assert NameLess(ContainerRow0[2], VoidRow0[0]);
      assert ContainerTagNames[3] == ContainerRow0[3];
      assert NameLess(VoidRow0[0], ContainerRow0[3]);
      NotInSorted(ContainerTagNames, VoidTagNames[0], 3);
    } else if i == 1 {
      assert ContainerTagNames[6] == ContainerRow0[6];
      assert NameLess(ContainerRow0[6], VoidRow0[1]);
      assert ContainerTagNames[7] == ContainerRow0[7];
      assert NameLess(VoidRow0[1], ContainerRow0[7]);
      NotInSorted(ContainerTagNames, VoidTagNames[1], 7);
    }
  }

  lemma VoidNamesNotContainerNames1(i: nat)
    requires 2 <= i < 4
    ensures VoidTagNames[i] !in ContainerTagNames
  {
    ContainerTagNamesSorted();
    assert VoidTagNames[i] == VoidRow0[i - 0];
    if i == 2 {
      assert ContainerTagNames[6] == ContainerRow0[6];
      assert NameLess(ContainerRow0[6], VoidRow0[2]);
      assert ContainerTagNames[7] == ContainerRow0[7];
      assert NameLess(VoidRow0[2], ContainerRow0[7]);
      NotInSorted(ContainerTagNames, VoidTagNames[2], 7);
    } else if i == 3 {
      assert ContainerTagNames[8] == ContainerRow0[8];
      assert NameLess(ContainerRow0[8], VoidRow0[3]);
      assert ContainerTagNames[9] == ContainerRow0[9];
      assert NameLess(VoidRow0[3], ContainerRow0[9]);
      NotInSorted(ContainerTagNames, VoidTagNames[3], 9);
    }
  }

  lemma VoidNamesNotContainerNames2(i: nat)
    requires 4 <= i < 6
    ensures VoidTagNames[i] !in ContainerTagNames
  {
    ContainerTagNamesSorted();
    assert VoidTagNames[i] == VoidRow0[i - 0];
    if i == 4 {
      assert ContainerTagNames[10] == ContainerRow0[10];
      assert NameLess(ContainerRow0[10], VoidRow0[4]);
      assert ContainerTagNames[11] == ContainerRow0[11];
      assert NameLess(VoidRow0[4], ContainerRow0[11]);
      NotInSorted(ContainerTagNames, VoidTagNames[4], 11);
    } else if i == 5 {
      assert ContainerTagNames[15] == ContainerRow1[3];
      assert NameLess(ContainerRow1[3], VoidRow0[5]);
      assert ContainerTagNames[16] == ContainerRow1[4];
      assert NameLess(VoidRow0[5], ContainerRow1[4]);
      NotInSorted(ContainerTagNames, VoidTagNames[5], 16);
    }
  }

  lemma VoidNamesNotContainerNames3(i: nat)
    requires 6 <= i < 8
    ensures VoidTagNames[i] !in ContainerTagNames
  {
    ContainerTagNamesSorted();
    assert VoidTagNames[i] == VoidRow0[i - 0];
    if i == 6 {
      assert ContainerTagNames[16] == ContainerRow1[4];
      assert NameLess(ContainerRow1[4], VoidRow0[6]);
      assert ContainerTagNames[17] == ContainerRow1[5];
      assert NameLess(VoidRow0[6], ContainerRow1[5]);
      NotInSorted(ContainerTagNames, VoidTagNames[6], 17);
    } else if i == 7 {
      assert ContainerTagNames[27] == ContainerRow2[3];
      assert NameLess(ContainerRow2[3], VoidRow0[7]);
      assert ContainerTagNames[28] == ContainerRow2[4];
      assert NameLess(VoidRow0[7], ContainerRow2[4]);
      NotInSorted(ContainerTagNames, VoidTagNames[7], 28);
    }
  }

  lemma VoidNamesNotContainerNames4(i: nat)
    requires 8 <= i < 10
    ensures VoidTagNames[i] !in ContainerTagNames
  {
    ContainerTagNamesSorted();
    assert VoidTagNames[i] == VoidRow0[i - 0];
    if i == 8 {
      assert ContainerTagNames[32] == ContainerRow2[8];
      assert NameLess(ContainerRow2[8], VoidRow0[8]);
      assert ContainerTagNames[33] == ContainerRow2[9];
      assert NameLess(VoidRow0[8], ContainerRow2[9]);
      NotInSorted(ContainerTagNames, VoidTagNames[8], 33);
    } else if i == 9 {
      assert ContainerTagNames[41] == ContainerRow3[5];
      assert NameLess(ContainerRow3[5], VoidRow0[9]);
      assert ContainerTagNames[42] == ContainerRow3[6];
      assert NameLess(VoidRow0[9], ContainerRow3[6]);
      NotInSorted(ContainerTagNames, VoidTagNames[9], 42);
    }
  }

  lemma VoidNamesNotContainerNames5(i: nat)
    requires 10 <= i < 12
    ensures VoidTagNames[i] !in ContainerTagNames
  {
    ContainerTagNamesSorted();
    assert VoidTagNames[i] == VoidRow0[i - 0];
    if i == 10 {
      assert ContainerTagNames[44] == ContainerRow3[8];
      assert NameLess(ContainerRow3[8], VoidRow0[10]);
      assert ContainerTagNames[45] == ContainerRow3[9];
      assert NameLess(VoidRow0[10], ContainerRow3[9]);
      NotInSorted(ContainerTagNames, VoidTagNames[10], 45);
    } else if i == 11 {
      assert ContainerTagNames[44] == ContainerRow3[8];
      assert NameLess(ContainerRow3[8], VoidRow0[11]);
      assert ContainerTagNames[45] == ContainerRow3[9];
      assert NameLess(VoidRow0[11], ContainerRow3[9]);
      NotInSorted(ContainerTagNames, VoidTagNames[11], 45);
    }
  }

  lemma VoidNamesNotContainerNames6(i: nat)
    requires 12 <= i < 14
    ensures VoidTagNames[i] !in ContainerTagNames
  {
    ContainerTagNamesSorted();
    assert VoidTagNames[i] == VoidRow1[i - 12];
    if i == 12 {
      assert ContainerTagNames[44] == ContainerRow3[8];
      assert NameLess(ContainerRow3[8], VoidRow1[0]);
      assert ContainerTagNames[45] == ContainerRow3[9];
      assert NameLess(VoidRow1[0], ContainerRow3[9]);
      NotInSorted(ContainerTagNames, VoidTagNames[12], 45);
    } else if i == 13 {
      assert ContainerTagNames[45] == ContainerRow3[9];
      assert NameLess(ContainerRow3[9], VoidRow1[1]);
      assert ContainerTagNames[46] == ContainerRow3[10];
      assert NameLess(VoidRow1[1], ContainerRow3[10]);
      NotInSorted(ContainerTagNames, VoidTagNames[13], 46);
    }
  }

  lemma VoidNamesNotContainerNames7(i: nat)
    requires 14 <= i < 16
    ensures VoidTagNames[i] !in ContainerTagNames
  {
    ContainerTagNamesSorted();
    assert VoidTagNames[i] == VoidRow1[i - 12];
    if i == 14 {
      assert ContainerTagNames[46] == ContainerRow3[10];
      assert NameLess(ContainerRow3[10], VoidRow1[2]);
      assert ContainerTagNames[47] == ContainerRow3[11];
      assert NameLess(VoidRow1[2], ContainerRow3[11]);
      NotInSorted(ContainerTagNames, VoidTagNames[14], 47);
    } else if i == 15 {
      assert ContainerTagNames[49] == ContainerRow4[1];
      assert NameLess(ContainerRow4[1], VoidRow1[3]);
      assert ContainerTagNames[50] == ContainerRow4[2];
      assert NameLess(VoidRow1[3], ContainerRow4[2]);
      NotInSorted(ContainerTagNames, VoidTagNames[15], 50);
    }
  }

  lemma VoidNamesNotContainerNames8(i: nat)
    requires 16 <= i < 18
    ensures VoidTagNames[i] !in ContainerTagNames
  {
    ContainerTagNamesSorted();
    assert VoidTagNames[i] == VoidRow1[i - 12];
    if i == 16 {
      assert ContainerTagNames[54] == ContainerRow4[6];
      assert NameLess(ContainerRow4[6], VoidRow1[4]);
      assert ContainerTagNames[55] == ContainerRow4[7];
      assert NameLess(VoidRow1[4], ContainerRow4[7]);
      NotInSorted(ContainerTagNames, VoidTagNames[16], 55);
    } else if i == 17 {
      assert ContainerTagNames[54] == ContainerRow4[6];
      assert NameLess(ContainerRow4[6], VoidRow1[5]);
      assert ContainerTagNames[55] == ContainerRow4[7];
      assert NameLess(VoidRow1[5], ContainerRow4[7]);
      NotInSorted(ContainerTagNames, VoidTagNames[17], 55);
    }
  }

  lemma VoidNamesNotContainerNames9(i: nat)
    requires 18 <= i < 20
    ensures VoidTagNames[i] !in ContainerTagNames
  {
    ContainerTagNamesSorted();
    assert VoidTagNames[i] == VoidRow1[i - 12];
    if i == 18 {
      assert ContainerTagNames[56] == ContainerRow4[8];
      assert NameLess(ContainerRow4[8], VoidRow1[6]);
      assert ContainerTagNames[57] == ContainerRow4[9];
      assert NameLess(VoidRow1[6], ContainerRow4[9]);
      NotInSorted(ContainerTagNames, VoidTagNames[18], 57);
    } else if i == 19 {
      assert ContainerTagNames[63] == ContainerRow5[3];
      assert NameLess(ContainerRow5[3], VoidRow1[7]);
      assert ContainerTagNames[64] == ContainerRow5[4];
      assert NameLess(VoidRow1[7], ContainerRow5[4]);
      NotInSorted(ContainerTagNames, VoidTagNames[19], 64);
    }
  }

  lemma VoidNamesNotContainerNames10(i: nat)
    requires 20 <= i < 22
    ensures VoidTagNames[i] !in ContainerTagNames
  {
    ContainerTagNamesSorted();
    assert VoidTagNames[i] == VoidRow1[i - 12];
    if i == 20 {
      assert ContainerTagNames[79] == ContainerRow6[7];
      assert NameLess(ContainerRow6[7], VoidRow1[8]);
      assert ContainerTagNames[80] == ContainerRow6[8];
      assert NameLess(VoidRow1[8], ContainerRow6[8]);
      NotInSorted(ContainerTagNames, VoidTagNames[20], 80);
    } else if i == 21 {
      assert ContainerTagNames[97] == ContainerRow8[1];
      assert NameLess(ContainerRow8[1], VoidRow1[9]);
      assert ContainerTagNames[98] == ContainerRow8[2];
      assert NameLess(VoidRow1[9], ContainerRow8[2]);
      NotInSorted(ContainerTagNames, VoidTagNames[21], 98);
    }
  }

  lemma VoidNamesNotContainerNames11(i: nat)
    requires 22 <= i < 23
    ensures VoidTagNames[i] !in ContainerTagNames
  {
    ContainerTagNamesSorted();
    assert VoidTagNames[i] == VoidRow1[i - 12];
    if i == 22 {
      assert ContainerTagNames[101] == ContainerRow8[5];
      assert NameLess(ContainerRow8[5], VoidRow1[10]);
      NotInSorted(ContainerTagNames, VoidTagNames[22], 102);
    }
  }

  lemma VoidNameNotContainerName(i: nat)
    requires i < |VoidTagNames|
    ensures VoidTagNames[i] !in ContainerTagNames
  {
    if i < 2 {
      VoidNamesNotContainerNames0(i);
    } else if i < 4 {
      VoidNamesNotContainerNames1(i);
    } else if i < 6 {
      VoidNamesNotContainerNames2(i);
    } else if i < 8 {
      VoidNamesNotContainerNames3(i);
    } else if i < 10 {
      VoidNamesNotContainerNames4(i);
    } else if i < 12 {
      VoidNamesNotContainerNames5(i);
    } else if i < 14 {
      VoidNamesNotContainerNames6(i);
    } else if i < 16 {
      VoidNamesNotContainerNames7(i);
    } else if i < 18 {
      VoidNamesNotContainerNames8(i);
    } else if i < 20 {
      VoidNamesNotContainerNames9(i);
    } else if i < 22 {
      VoidNamesNotContainerNames10(i);
    } else if i < 23 {
      VoidNamesNotContainerNames11(i);
    }
  }

  /** The entries of TAG_NAME_ENTRIES have pairwise different names. */
  lemma TagNamesDistinct()
    ensures forall i, j | 0 <= i < j < |TagNames| :: TagNames[i] != TagNames[j]
  {
    VoidTagNamesSorted();
    ContainerTagNamesSorted();
    forall i | 0 <= i < |VoidTagNames|
      ensures VoidTagNames[i] !in ContainerTagNames
    {
      VoidNameNotContainerName(i);
    }
    SortedPartsDistinct(VoidTagNames, ContainerTagNames);
  }

  /** Two strictly sorted lists with no name in common concatenate to a list without duplicates. */
  lemma SortedPartsDistinct(a: seq<string>, b: seq<string>)
    requires StrictlySorted(a) && StrictlySorted(b)
    requires forall i | 0 <= i < |a| :: a[i] !in b
    ensures forall i, j | 0 <= i < j < |a + b| :: (a + b)[i] != (a + b)[j]
  {
    forall i, j | 0 <= i < j < |a + b|
      ensures (a + b)[i] != (a + b)[j]
    {
      if j < |a| {
        SortedLess(a, i, j);
        NameLessIrreflexive(a[i]);
      } else if |a| <= i {
        SortedLess(b, i - |a|, j - |a|);
        NameLessIrreflexive(b[i - |a|]);
      } else {
        assert (a + b)[j] == b[j - |a|];
      }
    }
  }

  lemma EnumeratorNames0()
    ensures TypeName(COL) == "COL"
    ensures TypeName(HR) == "HR"
    ensures TypeName(ADDRESS) == "ADDRESS"
  {
  }

  lemma EnumeratorNames1()
    ensures TypeName(ARTICLE) == "ARTICLE"
    ensures TypeName(ASIDE) == "ASIDE"
    ensures TypeName(BLOCKQUOTE) == "BLOCKQUOTE"
  {
  }

  lemma EnumeratorNames2()
    ensures TypeName(COLGROUP) == "COLGROUP"
    ensures TypeName(DD) == "DD"
    ensures TypeName(DETAILS) == "DETAILS"
  {
  }

  lemma EnumeratorNames3()
    ensures TypeName(DIV) == "DIV"
    ensures TypeName(DL) == "DL"
    ensures TypeName(DT) == "DT"
  {
  }

  lemma EnumeratorNames4()
    ensures TypeName(FIELDSET) == "FIELDSET"
    ensures TypeName(FIGCAPTION) == "FIGCAPTION"
    ensures TypeName(FIGURE) == "FIGURE"
  {
  }

  lemma EnumeratorNames5()
    ensures TypeName(FOOTER) == "FOOTER"
    ensures TypeName(FORM) == "FORM"
    ensures TypeName(H1) == "H1"
  {
  }

  lemma EnumeratorNames6()
    ensures TypeName(H2) == "H2"
    ensures TypeName(H3) == "H3"
    ensures TypeName(H4) == "H4"
  {
  }

  lemma EnumeratorNames7()
    ensures TypeName(H5) == "H5"
    ensures TypeName(H6) == "H6"
    ensures TypeName(HEADER) == "HEADER"
  {
  }

  lemma EnumeratorNames8()
    ensures TypeName(LI) == "LI"
    ensures TypeName(MAIN) == "MAIN"
    ensures TypeName(NAV) == "NAV"
  {
  }

  lemma EnumeratorNames9()
    ensures TypeName(OL) == "OL"
    ensures TypeName(OPTGROUP) == "OPTGROUP"
    ensures TypeName(P) == "P"
  {
  }

  lemma EnumeratorNames10()
    ensures TypeName(PRE) == "PRE"
    ensures TypeName(RB) == "RB"
    ensures TypeName(RP) == "RP"
  {
  }

  lemma EnumeratorNames11()
    ensures TypeName(RT) == "RT"
    ensures TypeName(SCRIPT) == "SCRIPT"
    ensures TypeName(SECTION) == "SECTION"
  {
  }

  lemma EnumeratorNames12()
    ensures TypeName(STYLE) == "STYLE"
    ensures TypeName(TD) == "TD"
    ensures TypeName(TEMPLATE) == "TEMPLATE"
  {
  }

  lemma EnumeratorNames13()
    ensures TypeName(TH) == "TH"
    ensures TypeName(TR) == "TR"
    ensures TypeName(UL) == "UL"
  {
  }

  /** Each named enumerator has the value that its position in the table gives it. */
  lemma EnumeratorNames()
    ensures TypeName(COL) == "COL"
    ensures TypeName(HR) == "HR"
    ensures TypeName(ADDRESS) == "ADDRESS"
    ensures TypeName(ARTICLE) == "ARTICLE"
    ensures TypeName(ASIDE) == "ASIDE"
    ensures TypeName(BLOCKQUOTE) == "BLOCKQUOTE"
    ensures TypeName(COLGROUP) == "COLGROUP"
    ensures TypeName(DD) == "DD"
    ensures TypeName(DETAILS) == "DETAILS"
    ensures TypeName(DIV) == "DIV"
    ensures TypeName(DL) == "DL"
    ensures TypeName(DT) == "DT"
    ensures TypeName(FIELDSET) == "FIELDSET"
    ensures TypeName(FIGCAPTION) == "FIGCAPTION"
    ensures TypeName(FIGURE) == "FIGURE"
    ensures TypeName(FOOTER) == "FOOTER"
    ensures TypeName(FORM) == "FORM"
    ensures TypeName(H1) == "H1"
    ensures TypeName(H2) == "H2"
    ensures TypeName(H3) == "H3"
    ensures TypeName(H4) == "H4"
    ensures TypeName(H5) == "H5"
    ensures TypeName(H6) == "H6"
    ensures TypeName(HEADER) == "HEADER"
    ensures TypeName(LI) == "LI"
    ensures TypeName(MAIN) == "MAIN"
    ensures TypeName(NAV) == "NAV"
    ensures TypeName(OL) == "OL"
    ensures TypeName(OPTGROUP) == "OPTGROUP"
    ensures TypeName(P) == "P"
    ensures TypeName(PRE) == "PRE"
    ensures TypeName(RB) == "RB"
    ensures TypeName(RP) == "RP"
    ensures TypeName(RT) == "RT"
    ensures TypeName(SCRIPT) == "SCRIPT"
    ensures TypeName(SECTION) == "SECTION"
    ensures TypeName(STYLE) == "STYLE"
    ensures TypeName(TD) == "TD"
    ensures TypeName(TEMPLATE) == "TEMPLATE"
    ensures TypeName(TH) == "TH"
    ensures TypeName(TR) == "TR"
    ensures TypeName(UL) == "UL"
  {
    EnumeratorNames0();
    EnumeratorNames1();
    EnumeratorNames2();
    EnumeratorNames3();
    EnumeratorNames4();
    EnumeratorNames5();
    EnumeratorNames6();
    EnumeratorNames7();
    EnumeratorNames8();
    EnumeratorNames9();
    EnumeratorNames10();
    EnumeratorNames11();
    EnumeratorNames12();
    EnumeratorNames13();
  }

  // ---------------------------------------------------------------------------
  // Properties of the classifier
  // ---------------------------------------------------------------------------

  /**
   * tag_is_void holds exactly for the 23 types declared before END_OF_VOID_TAGS;
   * the sentinel, the container types and CUSTOM are not void.
   */
  lemma VoidExactlyTheVoidEntries(t: TagType)
    ensures IsVoid(TagMake(t)) <==> exists i | 0 <= i < |TagNames| :: i < |VoidTagNames| && EntryType(i) == t
    ensures |VoidTagNames| == 23
    ensures !IsVoid(TagMake(END_OF_VOID_TAGS)) && !IsVoid(TagMake(CUSTOM))
    ensures forall i | 0 <= i < |TagNames| :: IsVoid(TagMake(EntryType(i))) <==> i < |VoidTagNames|
  {
    if t < END_OF_VOID_TAGS {
      assert EntryType(t) == t;
    }
  }

  /** tag_equals is an equivalence relation. */
  lemma EqualsIsEquivalence(a: Tag, b: Tag, c: Tag)
    ensures Equals(a, a)
    ensures Equals(a, b) ==> Equals(b, a)
    ensures Equals(a, b) && Equals(b, c) ==> Equals(a, c)
  {
  }

  /** On tags built by the classifier, tag_equals is plain equality of values. */
  lemma EqualsOnCanonical(a: Tag, b: Tag)
    requires Canonical(a) && Canonical(b)
    ensures Equals(a, b) <==> a == b
  {
  }

  /** A name that is an entry of the table classifies as that entry's type, with an empty name. */
  lemma TagForNameOfEntry(name: seq<Byte>, i: nat)
    requires i < |TagNames| && name == TagNames[i]
    ensures TagForName(name) == TagMake(EntryType(i))
  {
    TagNamesDistinct();
  }

  /** An enumerator's own name classifies as that enumerator. */
  lemma TagForNameOfTypeName(name: seq<Byte>, t: TagType)
    requires t < END_OF_VOID_TAGS || END_OF_VOID_TAGS < t < CUSTOM
    requires name == TypeName(t)
    ensures TagForName(name) == TagMake(t)
  {
    var i := if t < END_OF_VOID_TAGS then t else t - 1;
    assert EntryType(i) == t;
    TagForNameOfEntry(name, i);
  }

  /** The search finds an entry exactly when the name is in the table. */
  lemma FindEntryFinds(table: seq<string>, name: seq<Byte>)
    ensures FindEntry(table, name, 0) < |table| <==> name in table
  {
    var i := FindEntry(table, name, 0);
    if i == |table| {
      assert forall j | 0 <= j < |table| :: table[j] != name;
    }
  }

  /** The sizes of the two halves of TAG_NAME_ENTRIES. */
  lemma TagNameCounts()
    ensures |VoidTagNames| == 23 && |ContainerTagNames| == 102 && |TagNames| == 125
  {
  }

  lemma TypeNameOfVoidEntry(i: nat)
    requires i < 23
    ensures TypeName(i) == TagNames[i]
  {
    TagNameCounts();
  }

  lemma TypeNameOfContainerEntry(i: nat)
    requires 23 <= i < 125
    ensures TypeName(i + 1) == TagNames[i]
  {
    TagNameCounts();
  }

  /** Every entry's type is named by that entry: TypeName inverts EntryType. */
  lemma TypeNameOfEntry(i: nat)
    requires i < |TagNames|
    ensures TypeName(EntryType(i)) == TagNames[i]
  {
    TagNameCounts();
    assert EntryType(i) == if i < 23 then i else i + 1;
    if i < 23 { TypeNameOfVoidEntry(i); } else { TypeNameOfContainerEntry(i); }
  }

  /** A non-CUSTOM result is the type whose name is the input, with an empty name. */
  lemma TagForNameOfListedName(name: seq<Byte>)
    ensures Canonical(TagForName(name))
    ensures TagForName(name).kind != CUSTOM ==> TypeName(TagForName(name).kind) == name
  {
    var i := FindEntry(TagNames, name, 0);
    if i < |TagNames| {
      TypeNameOfEntry(i);
    }
  }

  /** The comparison is case-sensitive: a lower-case spelling is a custom element. */
  lemma TagForNameOfLowerCase()
    ensures TagForName("div") == Tag(CUSTOM, "div")
  {
    VoidTagNamesSorted();
    ContainerTagNamesSorted();
    assert NameLess(VoidTagNames[|VoidTagNames| - 1], "div");
    assert NameLess(ContainerTagNames[|ContainerTagNames| - 1], "div");
    NotInSorted(VoidTagNames, "div", |VoidTagNames|);
    NotInSorted(ContainerTagNames, "div", |ContainerTagNames|);
  }

  /** The upper-case spelling is the table's DIV. */
  lemma TagForNameOfUpperCase()
    ensures TagForName("DIV") == TagMake(DIV)
  {
    EnumeratorNames();
    TagForNameOfTypeName("DIV", DIV);
  }

  /** The paragraph list of TAG_TYPES_NOT_ALLOWED_IN_PARAGRAPHS has 26 distinct entries. */
  lemma NotAllowedInParagraphDistinct()
    ensures |NotAllowedInParagraph| == 26
    ensures forall i, j | 0 <= i < j < |NotAllowedInParagraph| :: NotAllowedInParagraph[i] != NotAllowedInParagraph[j]
  {
  }

  /** The nesting rules of tag_can_contain, parent type by parent type. */
  lemma CanContainRules(parent: Tag, child: Tag)
    ensures parent.kind == LI ==> (CanContain(parent, child) <==> child.kind != LI)
    ensures parent.kind in {DT, DD} ==> (CanContain(parent, child) <==> child.kind !in {DT, DD})
    ensures parent.kind == P ==> (CanContain(parent, child) <==> child.kind !in NotAllowedInParagraph)
    ensures parent.kind == COLGROUP ==> (CanContain(parent, child) <==> child.kind == COL)
    ensures parent.kind in {RB, RT, RP} ==> (CanContain(parent, child) <==> child.kind !in {RB, RT, RP})
    ensures parent.kind == OPTGROUP ==> (CanContain(parent, child) <==> child.kind != OPTGROUP)
    ensures parent.kind == TR ==> (CanContain(parent, child) <==> child.kind != TR)
    ensures parent.kind in {TD, TH} ==> (CanContain(parent, child) <==> child.kind !in {TD, TH, TR})
    ensures parent.kind !in {LI, DT, DD, P, COLGROUP, RB, RT, RP, OPTGROUP, TR, TD, TH} ==> CanContain(parent, child)
  {
  }

  /** tag_can_contain looks at the two types only, never at custom names. */
  lemma CanContainIgnoresNames(parent: Tag, child: Tag, parent': Tag, child': Tag)
    requires parent.kind == parent'.kind && child.kind == child'.kind
    ensures CanContain(parent, child) == CanContain(parent', child')
  {
  }

  /** A paragraph is closed by a DIV start tag. */
  lemma ParagraphRejectsDiv()
    ensures !CanContain(TagMake(P), TagMake(DIV))
  {
  }

  /** A list is not in TAG_TYPES_NOT_ALLOWED_IN_PARAGRAPHS, so it stays inside a paragraph. */
  lemma ParagraphAcceptsList()
    ensures CanContain(TagMake(P), TagMake(UL))
  {
  }

  /** A custom element closes nothing implicitly. */
  lemma CustomAcceptsParagraph()
    ensures CanContain(TagMake(CUSTOM), TagMake(P))
  {
  }

}
