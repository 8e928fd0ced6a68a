/** The decisions the admin panel's blocks field makes while rendering: whether
    the default locale is being edited, the locale-aware validator, the row cap,
    the error count, which block renders each row, the banners, and the element's
    id and class string. The rendering itself and the row actions are not part
    of this model. */
module BlocksField {
  import opened Common

  const BaseClass := "blocks-field"

  /** The localization config: absent when the site is not localized. */
  datatype Localization = Localization(fallback: bool, defaultLocale: Option<string>)

  /** A block type the field offers. */
  datatype Block = Block(slug: string)

  /** A row of the field: its id, its `blockType` (None when unset) and the
      paths of its children's errors (None when unknown). */
  datatype Row = Row(id: string, blockType: Option<string>, childErrorPaths: Option<set<string>>)

  /** What a validator returns: `true`, or an error message. */
  datatype Validation = Valid | Invalid(message: string)

  /** The field's props that the modelled decisions read; an undefined number is None. */
  datatype Props = Props(
    name: string,
    pathFromProps: Option<string>,
    minRows: Option<int>,
    maxRows: Option<int>,
    required: bool,
    readOnly: bool,
    className: Option<string>,
    blocks: seq<Block>)

  // ---------------------------------------------------------------------------
  // The locale being edited

  /** `localization.defaultLocale || 'en'`. */
  function EffectiveDefaultLocale(l: Localization): (d: string)
    ensures d != ""
    ensures l.defaultLocale.Some? && l.defaultLocale.value != "" ==> d == l.defaultLocale.value
    ensures !(l.defaultLocale.Some? && l.defaultLocale.value != "") ==> d == "en"
  {
    if l.defaultLocale.Some? && l.defaultLocale.value != "" then l.defaultLocale.value else "en"
  }

  /** Without localization, or without fallback, every locale counts as the
      default one; otherwise only the configured default (`'en'` when unset). */
  function EditingDefaultLocale(localization: Option<Localization>, locale: string): bool {
    match localization
    case None => true
    case Some(l) => if l.fallback then locale == EffectiveDefaultLocale(l) else true
  }

  /** With fallback on, exactly one locale is the default one: the configured
      default, or `en` when none (or an empty one) is configured. Without
      localization or without fallback, every locale is. */
  lemma OneDefaultLocaleWithFallback(l: Localization, a: string, b: string)
    ensures l.fallback ==> EditingDefaultLocale(Some(l), EffectiveDefaultLocale(l))
    ensures l.fallback && EditingDefaultLocale(Some(l), a) && EditingDefaultLocale(Some(l), b) ==> a == b
    ensures l.fallback && (l.defaultLocale.None? || l.defaultLocale == Some("")) ==>
      (EditingDefaultLocale(Some(l), a) <==> a == "en")
    ensures !l.fallback ==> EditingDefaultLocale(Some(l), a)
    ensures EditingDefaultLocale(None, a)
  {
  }

  // ---------------------------------------------------------------------------
  // Validation

  /** An optional number as the value of an options property (undefined as null). */
  function NumberOption(o: Option<int>): Json {
    match o
    case Some(n) => JNum(n)
    case None => JNull
  }

  /** `{ ...options, minRows, maxRows, required }`. */
  function MergedOptions(options: Doc, p: Props): (merged: Doc)
    ensures merged.Keys == options.Keys + {"minRows", "maxRows", "required"}
    ensures merged["minRows"] == NumberOption(p.minRows)
    ensures merged["maxRows"] == NumberOption(p.maxRows)
    ensures merged["required"] == JBool(p.required)
    ensures forall k :: k in options && k !in {"minRows", "maxRows", "required"} ==> merged[k] == options[k]
  {
    options["minRows" := NumberOption(p.minRows)]["maxRows" := NumberOption(p.maxRows)]["required" := JBool(p.required)]
  }

  /** The validator handed to the form: a null value off the default locale is
      valid without asking the field's validator; anything else, `undefined`
      (None) included, is checked by it with the row limits and `required` merged
      into the options. */
  function MemoizedValidate(editingDefault: bool, p: Props, validate: (Option<Json>, Doc) -> Validation,
                            value: Option<Json>, options: Doc): Validation
  {
    if !editingDefault && value == Some(JNull) then Valid else validate(value, MergedOptions(options, p))
  }

  /** Off the default locale a null value is accepted whatever the validator says;
      `undefined` is not null (`===`) and still goes to the validator. Every other
      value gets the validator's verdict on the merged options: a validator that
      accepts (or rejects) there is accepted (or rejected) through the wrapper,
      and two validators that agree there agree through it. */
  lemma NullAcceptedOffDefaultLocale(editingDefault: bool, p: Props, v1: (Option<Json>, Doc) -> Validation,
                                     v2: (Option<Json>, Doc) -> Validation, value: Option<Json>, options: Doc)
    ensures MemoizedValidate(false, p, v1, Some(JNull), options) == Valid
    ensures MemoizedValidate(editingDefault, p, v1, None, options) == v1(None, MergedOptions(options, p))
    ensures (editingDefault || value != Some(JNull)) ==>
      MemoizedValidate(editingDefault, p, v1, value, options) == v1(value, MergedOptions(options, p))
    ensures (editingDefault || value != Some(JNull)) && v1(value, MergedOptions(options, p)).Invalid? ==>
      MemoizedValidate(editingDefault, p, v1, value, options).Invalid?
    ensures (editingDefault || value != Some(JNull)) && v1(value, MergedOptions(options, p)) == v2(value, MergedOptions(options, p))
      ==> MemoizedValidate(editingDefault, p, v1, value, options) == MemoizedValidate(editingDefault, p, v2, value, options)
  {
  }

  // ---------------------------------------------------------------------------
  // Row cap and add control

  /** `maxRows && rows.length >= maxRows`: a zero or undefined cap never applies. */
  function HasMaxRows(maxRows: Option<int>, rowCount: nat): bool {
    match maxRows
    case None => false
    case Some(m) => m != 0 && rowCount >= m
  }

  /** The add button and drawer are shown when the field is writable and not capped. */
  function ShowAddControl(readOnly: bool, hasMaxRows: bool): bool {
    !readOnly && !hasMaxRows
  }

  /** On a writable field with a positive cap, the add control is shown exactly
      while there are fewer rows than the cap; an undefined or zero cap never hides
      it; a read-only field never shows it. */
  lemma AddControlStopsAtCap(maxRows: int, rowCount: nat, readOnly: bool)
    ensures maxRows > 0 ==> (ShowAddControl(false, HasMaxRows(Some(maxRows), rowCount)) <==> rowCount < maxRows)
    ensures ShowAddControl(false, HasMaxRows(None, rowCount))
    ensures ShowAddControl(false, HasMaxRows(Some(0), rowCount))
    ensures !ShowAddControl(true, HasMaxRows(Some(maxRows), rowCount))
    ensures maxRows < 0 ==> HasMaxRows(Some(maxRows), rowCount)
  {
  }

  // ---------------------------------------------------------------------------
  // Errors

  /** `row?.childErrorPaths?.size || 0`. */
  function RowErrorCount(row: Row): nat {
    match row.childErrorPaths
    case Some(paths) => |paths|
    case None => 0
  }

  /** `rows.reduce((total, row) => total + size, 0)`. */
  function FieldErrorCount(rows: seq<Row>): nat
    decreases |rows|
  {
    if rows == [] then 0 else FieldErrorCount(rows[..|rows| - 1]) + RowErrorCount(rows[|rows| - 1])
  }

  /** The count adds up over consecutive rows. */
  lemma {:induction false} FieldErrorCountAppend(a: seq<Row>, b: seq<Row>)
    ensures FieldErrorCount(a + b) == FieldErrorCount(a) + FieldErrorCount(b)
    decreases |b|
  {
    if b == [] {
      assert a + b == a;
    } else {
      assert (a + b)[..|a + b| - 1] == a + b[..|b| - 1];
      FieldErrorCountAppend(a, b[..|b| - 1]);
    }
  }

  /** The count is zero exactly when no row reports a child error. */
  lemma {:induction false} FieldErrorCountZero(rows: seq<Row>)
    ensures FieldErrorCount(rows) == 0 <==> forall i :: 0 <= i < |rows| ==> RowErrorCount(rows[i]) == 0
    decreases |rows|
  {
    if rows != [] {
      var init := rows[..|rows| - 1];
      FieldErrorCountZero(init);
      assert forall i :: 0 <= i < |init| ==> init[i] == rows[i];
    }
  }

  /** `submitted && fieldErrorCount + (valid ? 0 : 1) > 0`. */
  function FieldHasErrors(submitted: bool, errorCount: nat, valid: bool): bool {
    submitted && errorCount + (if valid then 0 else 1) > 0
  }

  /** After a submit the field shows an error exactly when it is itself invalid or
      some row reports a child error; before a submit it never does. */
  lemma HasErrorsIffSomeRowOrInvalid(submitted: bool, rows: seq<Row>, valid: bool)
    ensures FieldHasErrors(submitted, FieldErrorCount(rows), valid)
      <==> submitted && (!valid || exists i :: 0 <= i < |rows| && RowErrorCount(rows[i]) > 0)
  {
    FieldErrorCountZero(rows);
  }

  // ---------------------------------------------------------------------------
  // Rows

  /** The index of the first block whose slug is `blockType`, `|blocks|` when none is. */
  function MatchIndex(blocks: seq<Block>, blockType: Option<string>): (k: nat)
    ensures k <= |blocks|
    ensures forall j :: 0 <= j < k ==> blockType != Some(blocks[j].slug)
    ensures k < |blocks| ==> blockType == Some(blocks[k].slug)
    decreases |blocks|
  {
    if blocks == [] || blockType == Some(blocks[0].slug) then 0
    else 1 + MatchIndex(blocks[1..], blockType)
  }

  /** `blocks.find(block => block.slug === blockType)`. */
  function BlockToRender(blocks: seq<Block>, blockType: Option<string>): (b: Option<Block>)
    ensures b.None? <==> forall i :: 0 <= i < |blocks| ==> blockType != Some(blocks[i].slug)
    ensures b.Some? ==> exists i :: (0 <= i < |blocks| && blocks[i] == b.value && blockType == Some(b.value.slug)
      && forall j :: 0 <= j < i ==> blockType != Some(blocks[j].slug))
  {
    var k := MatchIndex(blocks, blockType);
    if k < |blocks| then Some(blocks[k]) else None
  }

  /** What one row renders: its block row, or nothing for an unknown block type. */
  datatype RenderedRow = BlockRow(rowId: string, rowIndex: nat, block: Block, rowCount: nat, hasMaxRows: bool)

  /** `rows.map(...)`: one entry per row, None where the row renders nothing. */
  function RenderRows(rows: seq<Row>, p: Props): (out: seq<Option<RenderedRow>>)
    ensures |out| == |rows|
    ensures forall i :: 0 <= i < |rows| ==> (out[i].None? <==> BlockToRender(p.blocks, rows[i].blockType).None?)
    ensures forall i :: 0 <= i < |rows| && out[i].Some? ==>
      out[i].value == BlockRow(rows[i].id, i, BlockToRender(p.blocks, rows[i].blockType).value,
                               |rows|, HasMaxRows(p.maxRows, |rows|))
  {
    seq(|rows|, i requires 0 <= i < |rows| =>
      match BlockToRender(p.blocks, rows[i].blockType)
      case Some(b) => Some(BlockRow(rows[i].id, i, b, |rows|, HasMaxRows(p.maxRows, |rows|)))
      case None => None)
  }

  /** A row renders exactly when some offered block has its type, and then with
      the first such block. */
  lemma RowRendersIffKnownType(rows: seq<Row>, p: Props, i: nat)
    requires i < |rows|
    ensures RenderRows(rows, p)[i].Some? <==> exists j :: 0 <= j < |p.blocks| && rows[i].blockType == Some(p.blocks[j].slug)
    ensures RenderRows(rows, p)[i].Some? ==>
      exists j :: 0 <= j < |p.blocks| && RenderRows(rows, p)[i].value.block == p.blocks[j]
        && rows[i].blockType == Some(p.blocks[j].slug)
        && forall j' :: 0 <= j' < j ==> rows[i].blockType != Some(p.blocks[j'].slug)
  {
  }

  // ---------------------------------------------------------------------------
  // Banners (shown only off the default locale)

  datatype Label = Singular | Plural

  /** `validation:requiresAtLeast` with its count and label. */
  datatype RequiresAtLeast = RequiresAtLeast(count: Option<int>, form: Label)

  /** `rows.length < minRows || (required && rows.length === 0)`, off the default
      locale; an undefined `minRows` never compares as greater. */
  function ShowMinRowsBanner(editingDefault: bool, p: Props, rowCount: nat): bool {
    !editingDefault && ((p.minRows.Some? && rowCount < p.minRows.value) || (p.required && rowCount == 0))
  }

  /** The banner's message: singular when `minRows` is 1 or undefined, plural otherwise. */
  function MinRowsMessage(p: Props): (m: RequiresAtLeast)
    ensures m.count == p.minRows
    ensures m.form == Singular <==> p.minRows.None? || p.minRows.value == 1
  {
    RequiresAtLeast(p.minRows, if p.minRows == Some(1) || p.minRows.None? then Singular else Plural)
  }

  /** `rows.length === 0 && readOnly`, off the default locale. */
  function ShowFieldHasNoBanner(editingDefault: bool, p: Props, rowCount: nat): bool {
    !editingDefault && rowCount == 0 && p.readOnly
  }

  /** The banners never show on the default locale. Off it, the min-rows banner
      shows exactly when there are too few rows: fewer than `minRows` (never when
      it is undefined), or none on a required field; the empty banner shows
      exactly on a read-only field with no rows. */
  lemma BannerConditions(editingDefault: bool, p: Props, rowCount: nat)
    ensures editingDefault ==> !ShowMinRowsBanner(editingDefault, p, rowCount)
                               && !ShowFieldHasNoBanner(editingDefault, p, rowCount)
    ensures !editingDefault && p.minRows.Some? && rowCount < p.minRows.value ==> ShowMinRowsBanner(editingDefault, p, rowCount)
    ensures !editingDefault && p.required && rowCount == 0 ==> ShowMinRowsBanner(editingDefault, p, rowCount)
    ensures (p.minRows.None? || rowCount >= p.minRows.value) && (p.required ==> rowCount > 0)
      ==> !ShowMinRowsBanner(editingDefault, p, rowCount)
    ensures !editingDefault && p.readOnly ==> (ShowFieldHasNoBanner(editingDefault, p, rowCount) <==> rowCount == 0)
    ensures !p.readOnly || rowCount > 0 ==> !ShowFieldHasNoBanner(editingDefault, p, rowCount)
  {
  }

  // ---------------------------------------------------------------------------
  // The element's id

  /** `pathFromProps || name`. */
  function FieldPath(p: Props): (path: string)
    ensures p.pathFromProps.Some? && p.pathFromProps.value != "" ==> path == p.pathFromProps.value
    ensures p.pathFromProps.None? || p.pathFromProps.value == "" ==> path == p.name
  {
    if p.pathFromProps.Some? && p.pathFromProps.value != "" then p.pathFromProps.value else p.name
  }

  /** `s.replace(/\./gi, '__')`. */
  function ReplaceDots(s: string): (r: string)
    ensures '.' !in r
    ensures |r| >= |s|
    decreases |s|
  {
    if s == [] then []
    else (if s[0] == '.' then "__" else [s[0]]) + ReplaceDots(s[1..])
  }

  /** Reads `__` back as `.`; the partner of ReplaceDots on paths without `_`. */
  function RestoreDots(s: string): string
    decreases |s|
  {
    if |s| >= 2 && s[0] == '_' && s[1] == '_' then "." + RestoreDots(s[2..])
    else if s == [] then []
    else [s[0]] + RestoreDots(s[1..])
  }

  lemma {:induction false} DotsRoundTrip(s: string)
    requires '_' !in s
    ensures RestoreDots(ReplaceDots(s)) == s
    decreases |s|
  {
    if s != [] {
      assert '_' !in s[1..] by {
        forall i | 0 <= i < |s[1..]| ensures s[1..][i] != '_' {
          assert s[1..][i] == s[i + 1];
        }
      }
      DotsRoundTrip(s[1..]);
      var r := ReplaceDots(s[1..]);
      if s[0] == '.' {
        assert ReplaceDots(s) == "__" + r;
        assert ("__" + r)[2..] == r;
      } else {
        assert ReplaceDots(s) == [s[0]] + r;
        assert ([s[0]] + r)[1..] == r;
      }
    }
  }

  /** `field-${path.replace(/\./gi, '__')}`. */
  function FieldId(p: Props): (id: string)
    ensures |id| >= 6 && id[..6] == "field-"
    ensures '.' !in id
  {
    "field-" + ReplaceDots(FieldPath(p))
  }

  /** The id has no dot, starts with `field-`, and gives the path back when the
      path has no underscore. */
  lemma FieldIdRecoversPath(p: Props)
    requires '_' !in FieldPath(p)
    ensures RestoreDots(FieldId(p)[6..]) == FieldPath(p)
  {
    assert FieldId(p)[6..] == ReplaceDots(FieldPath(p));
    DotsRoundTrip(FieldPath(p));
  }

  // ---------------------------------------------------------------------------
  // The class string

  /** A truthy class entry: defined and not empty. */
  predicate Truthy(o: Option<string>) { o.Some? && o.value != "" }

  /** `.filter(Boolean)`. */
  function FilterTruthy(entries: seq<Option<string>>): (parts: seq<string>)
    ensures forall i :: 0 <= i < |parts| ==> parts[i] != ""
    ensures forall s :: s in parts <==> Some(s) in entries && s != ""
    ensures |parts| <= |entries|
    decreases |entries|
  {
    if entries == [] then []
    else
      var rest := FilterTruthy(entries[1..]);
      assert forall s :: Some(s) in entries <==> Some(s) == entries[0] || Some(s) in entries[1..] by {
        assert entries == [entries[0]] + entries[1..];
      }
      (if Truthy(entries[0]) then [entries[0].value] else []) + rest
  }

  lemma FilterTruthyCons(x: Option<string>, rest: seq<Option<string>>)
    ensures FilterTruthy([x] + rest) == (if Truthy(x) then [x.value] else []) + FilterTruthy(rest)
  {
    assert ([x] + rest)[1..] == rest;
  }

  /** Filtering keeps the order of the entries: the truthy entries of `a` come
      first, in order, then those of `b`. */
  lemma {:induction false} FilterTruthyAppend(a: seq<Option<string>>, b: seq<Option<string>>)
    ensures FilterTruthy(a + b) == FilterTruthy(a) + FilterTruthy(b)
    decreases |a|
  {
    if a != [] {
      assert a + b == [a[0]] + (a[1..] + b);
      FilterTruthyCons(a[0], a[1..] + b);
      FilterTruthyAppend(a[1..], b);
      assert a == [a[0]] + a[1..];
      FilterTruthyCons(a[0], a[1..]);
    } else {
      assert a + b == b;
    }
  }

  /** `.join(' ')`. */
  function Join(parts: seq<string>): string
    decreases |parts|
  {
    if parts == [] then ""
    else if |parts| == 1 then parts[0]
    else parts[0] + " " + Join(parts[1..])
  }

  /** The modifier for the error state. */
  function ErrorModifier(hasErrors: bool): string {
    if hasErrors then BaseClass + "--has-error" else BaseClass + "--has-no-error"
  }

  /** The class entries after filtering. */
  function ClassList(className: Option<string>, hasErrors: bool): (parts: seq<string>)
    ensures |parts| == (if Truthy(className) then 4 else 3)
    ensures parts[0] == "field-type" && parts[1] == BaseClass
    ensures parts[|parts| - 1] == ErrorModifier(hasErrors)
    ensures Truthy(className) ==> parts[2] == className.value
  {
    var last := [Some(ErrorModifier(hasErrors))];
    assert FilterTruthy(last) == [ErrorModifier(hasErrors)] by {
      assert last[1..] == [];
    }
    var e := [Some("field-type")] + ([Some(BaseClass)] + ([className] + last));
    FilterTruthyCons(className, last);
    FilterTruthyCons(Some(BaseClass), [className] + last);
    FilterTruthyCons(Some("field-type"), [Some(BaseClass)] + ([className] + last));
    FilterTruthy(e)
  }

  /** `classes`: the entries joined with single spaces. */
  function Classes(className: Option<string>, hasErrors: bool): string {
    Join(ClassList(className, hasErrors))
  }

  /** The list holds exactly one of the two error modifiers, the one matching
      the error state, unless `className` is itself one of them. */
  lemma ExactlyOneModifier(className: Option<string>, hasErrors: bool)
    requires !Truthy(className) || (className.value != ErrorModifier(true) && className.value != ErrorModifier(false))
    ensures var parts := ClassList(className, hasErrors);
      (forall i :: 0 <= i < |parts| - 1 ==> parts[i] != ErrorModifier(true) && parts[i] != ErrorModifier(false))
      && (ErrorModifier(true) in parts <==> hasErrors)
      && (ErrorModifier(false) in parts <==> !hasErrors)
  {
    var parts := ClassList(className, hasErrors);
    assert ErrorModifier(true) != ErrorModifier(false) by {
      assert ErrorModifier(true)[|BaseClass| + 6] == 'e';
      assert ErrorModifier(false)[|BaseClass| + 6] == 'n';
    }
    assert "field-type" != ErrorModifier(true) && "field-type" != ErrorModifier(false) by {
      assert |"field-type"| < |ErrorModifier(true)|;
      assert |"field-type"| < |ErrorModifier(false)|;
    }
    assert BaseClass != ErrorModifier(true) && BaseClass != ErrorModifier(false) by {
      assert |BaseClass| < |ErrorModifier(true)|;
      assert |BaseClass| < |ErrorModifier(false)|;
    }
  }

  /** Splits a string at every space: the partner of Join. */
  function SplitSpaces(s: string): (parts: seq<string>)
    ensures |parts| >= 1
    decreases |s|
  {
    if s == [] then [""]
    else
      var rest := SplitSpaces(s[1..]);
      if s[0] == ' ' then [""] + rest else [[s[0]] + rest[0]] + rest[1..]
  }

  /** Joining words without spaces and splitting again gives the words back, so
      the class attribute carries the class list entry for entry. */
  lemma {:induction false} SplitJoin(parts: seq<string>)
    requires |parts| >= 1
    requires forall i :: 0 <= i < |parts| ==> ' ' !in parts[i]
    ensures SplitSpaces(Join(parts)) == parts
    decreases |parts|
  {
    if |parts| == 1 {
      SplitWord(parts[0], []);
      assert parts[0] + [] == parts[0];
      assert SplitSpaces([]) == [""];
      assert parts[0] + "" == parts[0];
      assert [parts[0]] == parts;
    } else {
      var rest := parts[1..];
      assert forall i :: 0 <= i < |rest| ==> rest[i] == parts[i + 1];
      SplitJoin(rest);
      var j := Join(rest);
      assert (" " + j)[1..] == j;
      assert SplitSpaces(" " + j) == [""] + rest;
      assert Join(parts) == parts[0] + (" " + j);
      SplitWord(parts[0], " " + j);
      assert parts[0] + "" == parts[0];
      assert [parts[0]] + rest == parts;
    }
  }

  /** A word without spaces in front of a text ends up glued to the text's first piece. */
  lemma {:induction false} SplitWord(w: string, t: string)
    requires ' ' !in w
    ensures SplitSpaces(w + t) == [w + SplitSpaces(t)[0]] + SplitSpaces(t)[1..]
    decreases |w|
  {
    if w != [] {
      assert (w + t)[1..] == w[1..] + t;
      assert ' ' !in w[1..] by {
        forall i | 0 <= i < |w[1..]| ensures w[1..][i] != ' ' {
          assert w[1..][i] == w[i + 1];
        }
      }
      SplitWord(w[1..], t);
      assert w[0] in w;
      assert (w + t)[0] == w[0];
      var r := SplitSpaces(w[1..] + t);
      assert SplitSpaces(w + t) == [[w[0]] + r[0]] + r[1..];
      assert [w[0]] + (w[1..] + SplitSpaces(t)[0]) == w + SplitSpaces(t)[0];
    } else {
      assert w + t == t;
      assert [] + SplitSpaces(t)[0] == SplitSpaces(t)[0];
      assert SplitSpaces(t) == [SplitSpaces(t)[0]] + SplitSpaces(t)[1..];
    }
  }

  /** The class attribute read back as words is the class list, when `className`
      has no space in it. */
  lemma ClassesSplitToList(className: Option<string>, hasErrors: bool)
    requires !Truthy(className) || ' ' !in className.value
    ensures SplitSpaces(Classes(className, hasErrors)) == ClassList(className, hasErrors)
  {
    var parts := ClassList(className, hasErrors);
    assert ' ' !in "field-type";
    assert ' ' !in BaseClass;
    assert ' ' !in ErrorModifier(hasErrors);
    SplitJoin(parts);
  }
}
