/** The GraphQL access resolver: the access results of the request, with the
    per-collection and per-global entries re-keyed under their GraphQL names.

    `formatName` is a parameter of the model (its body is not part of it); only
    the names it gives matter. */
module AccessResolver {
  import opened Common

  /** `obj[key]`, with an absent property read as undefined (JNull). */
  function Lookup(m: map<string, Json>, key: string): Json {
    if key in m then m[key] else JNull
  }

  /** `k` is the text of an index below `n`. */
  predicate IsIndexKey(n: nat, k: string) {
    exists i: nat :: i < n && k == NatToString(i)
  }

  /** The index properties of an array-like value: key `${i}` holds item `i`. */
  function IndexKeyed(items: seq<Json>): (m: map<string, Json>)
    ensures forall k :: k in m <==> IsIndexKey(|items|, k)
    ensures forall i :: 0 <= i < |items| ==> NatToString(i) in m && m[NatToString(i)] == items[i]
    decreases |items|
  {
    if items == [] then map[]
    else
      var n := |items| - 1;
      var rest := IndexKeyed(items[..n]);
      NatToStringInjective();
      var m := rest[NatToString(n) := items[n]];
      assert forall k :: IsIndexKey(|items|, k) ==> k in m by {
        forall k | IsIndexKey(|items|, k) ensures k in m {
          var i: nat :| i < |items| && k == NatToString(i);
          if i < n {
            assert IsIndexKey(n, k);
          }
        }
      }
      m
  }

  /** The one-character strings of a string, in order. */
  function Characters(s: string): seq<Json> {
    seq(|s|, i requires 0 <= i < |s| => JStr([s[i]]))
  }

  /** The own enumerable properties `{ ...v }` copies: an object's fields, one
      property per index for an array or a string, none for anything else
      (null, undefined, booleans, numbers). */
  function SpreadValue(v: Json): (m: map<string, Json>)
    ensures v.JObj? ==> m == v.fields
    ensures v.JArr? ==> forall k :: k in m <==> IsIndexKey(|v.items|, k)
    ensures v.JArr? ==> forall i :: 0 <= i < |v.items| ==> NatToString(i) in m && m[NatToString(i)] == v.items[i]
    ensures v.JStr? ==> forall k :: k in m <==> IsIndexKey(|v.s|, k)
    ensures v.JStr? ==> forall i :: 0 <= i < |v.s| ==> NatToString(i) in m && m[NatToString(i)] == JStr([v.s[i]])
    ensures !v.JObj? && !v.JArr? && !v.JStr? ==> m == map[]
  {
    match v
    case JObj(fields) => fields
    case JArr(items) => IndexKeyed(items)
    case JStr(s) => IndexKeyed(Characters(s))
    case _ => map[]
  }

  /** One iteration of the `forEach`: copy the slug's entry (or `{}` when it is
      falsy), delete the slug, then store the copy under the formatted name. */
  function RenameOne(m: map<string, Json>, slug: string, formatName: string -> string): map<string, Json> {
    (m - {slug})[formatName(slug) := JObj(SpreadValue(Lookup(m, slug)))]
  }

  /** The copy after the `forEach` has visited `slugs` in order. */
  function Renamed(m: map<string, Json>, slugs: seq<string>, formatName: string -> string): map<string, Json>
    decreases |slugs|
  {
    if slugs == [] then m
    else RenameOne(Renamed(m, slugs[..|slugs| - 1], formatName), slugs[|slugs| - 1], formatName)
  }

  /** `formatConfigNames(results, configs)`: a shallow copy of `results` is
      re-keyed slug by slug; `results` itself is a value and stays as it was. */
  method FormatConfigNames(results: Json, slugs: seq<string>, formatName: string -> string)
    returns (formatted: map<string, Json>)
    ensures formatted == Renamed(SpreadValue(results), slugs, formatName)
  {
    formatted := SpreadValue(results);
    var i := 0;
    while i < |slugs|
      invariant 0 <= i <= |slugs|
      invariant formatted == Renamed(SpreadValue(results), slugs[..i], formatName)
    {
      var slug := slugs[i];
      var result := SpreadValue(Lookup(formatted, slug));
      formatted := formatted - {slug};
      formatted := formatted[formatName(slug) := JObj(result)];
      assert slugs[..i + 1][..i] == slugs[..i];
      i := i + 1;
    }
    assert slugs[..|slugs|] == slugs;
  }

  /** `k` is the formatted name of one of the slugs. */
  predicate IsFormattedName(slugs: seq<string>, formatName: string -> string, k: string) {
    exists i :: 0 <= i < |slugs| && formatName(slugs[i]) == k
  }

  /** The slugs are distinct, their formatted names are distinct, and no
      formatted name is another config's slug: then no step reads or overwrites
      what another step wrote. */
  predicate Separated(slugs: seq<string>, formatName: string -> string) {
    forall i, j :: 0 <= i < |slugs| && 0 <= j < |slugs| && i != j ==>
      slugs[i] != slugs[j] && formatName(slugs[i]) != formatName(slugs[j]) && formatName(slugs[i]) != slugs[j]
  }

  /** Whatever the names, the copy only holds keys of the input and formatted
      names. */
  lemma {:induction false} RenamedKeys(m: map<string, Json>, slugs: seq<string>, formatName: string -> string)
    ensures forall k :: k in Renamed(m, slugs, formatName) ==> k in m || IsFormattedName(slugs, formatName, k)
    decreases |slugs|
  {
    if slugs != [] {
      var init := slugs[..|slugs| - 1];
      RenamedKeys(m, init, formatName);
      forall k | IsFormattedName(init, formatName, k)
        ensures IsFormattedName(slugs, formatName, k)
      {
        var i :| 0 <= i < |init| && formatName(init[i]) == k;
        assert formatName(slugs[i]) == k;
      }
    }
  }

  /** Whatever the names, a key that is neither a slug nor a formatted name keeps
      its input entry, or stays absent. */
  lemma {:induction false} OtherKeyKept(m: map<string, Json>, slugs: seq<string>, formatName: string -> string, k: string)
    requires k !in slugs && !IsFormattedName(slugs, formatName, k)
    ensures (k in Renamed(m, slugs, formatName) <==> k in m)
    ensures Lookup(Renamed(m, slugs, formatName), k) == Lookup(m, k)
    decreases |slugs|
  {
    if slugs != [] {
      var n := |slugs| - 1;
      var init := slugs[..n];
      OtherKeyKept(m, init, formatName, k);
    }
  }

  /** With separated names, the formatted name of the i-th slug holds a copy of
      that slug's input entry, `{}` when it is absent. */
  lemma {:induction false} FormattedEntry(m: map<string, Json>, slugs: seq<string>, formatName: string -> string, i: nat)
    requires Separated(slugs, formatName)
    requires i < |slugs|
    ensures formatName(slugs[i]) in Renamed(m, slugs, formatName)
    ensures Renamed(m, slugs, formatName)[formatName(slugs[i])] == JObj(SpreadValue(Lookup(m, slugs[i])))
    decreases |slugs|
  {
    var n := |slugs| - 1;
    var init := slugs[..n];
    var last := slugs[n];
    assert Separated(init, formatName);
    if i == n {
      OtherKeyKept(m, init, formatName, last);
    } else {
      assert slugs[i] == init[i];
      FormattedEntry(m, init, formatName, i);
    }
  }

  /** With separated names, a slug whose formatted name differs from it is no
      longer a key of the copy. */
  lemma {:induction false} RawSlugRemoved(m: map<string, Json>, slugs: seq<string>, formatName: string -> string, i: nat)
    requires Separated(slugs, formatName)
    requires i < |slugs| && formatName(slugs[i]) != slugs[i]
    ensures slugs[i] !in Renamed(m, slugs, formatName)
    decreases |slugs|
  {
    var n := |slugs| - 1;
    var init := slugs[..n];
    assert Separated(init, formatName);
    if i < n {
      assert slugs[i] == init[i];
      RawSlugRemoved(m, init, formatName, i);
    }
  }

  /** The resolver's answer: the access results, then the formatted collections,
      then the formatted globals, each spread over the previous ones. */
  function ResolveAccess(access: Doc, collectionSlugs: seq<string>, globalSlugs: seq<string>,
                         formatName: string -> string): (r: Doc)
    ensures forall k :: k in r <==>
      k in access || k in Renamed(SpreadValue(Lookup(access, "collections")), collectionSlugs, formatName)
      || k in Renamed(SpreadValue(Lookup(access, "globals")), globalSlugs, formatName)
    ensures forall k :: k in Renamed(SpreadValue(Lookup(access, "globals")), globalSlugs, formatName) ==>
      r[k] == Renamed(SpreadValue(Lookup(access, "globals")), globalSlugs, formatName)[k]
    ensures forall k :: (k !in Renamed(SpreadValue(Lookup(access, "globals")), globalSlugs, formatName)
      && k in Renamed(SpreadValue(Lookup(access, "collections")), collectionSlugs, formatName)) ==>
      r[k] == Renamed(SpreadValue(Lookup(access, "collections")), collectionSlugs, formatName)[k]
    ensures forall k :: (k !in Renamed(SpreadValue(Lookup(access, "globals")), globalSlugs, formatName)
      && k !in Renamed(SpreadValue(Lookup(access, "collections")), collectionSlugs, formatName)
      && k in access) ==> r[k] == access[k]
  {
    access
    + Renamed(SpreadValue(Lookup(access, "collections")), collectionSlugs, formatName)
    + Renamed(SpreadValue(Lookup(access, "globals")), globalSlugs, formatName)
  }

  /** A collection's permissions appear under its GraphQL name, copied from
      `access.collections[slug]`, unless a global's answer claims that name. */
  lemma CollectionUnderFormattedName(access: Doc, collectionSlugs: seq<string>, globalSlugs: seq<string>,
                                     formatName: string -> string, i: nat)
    requires Separated(collectionSlugs, formatName)
    requires i < |collectionSlugs|
    requires formatName(collectionSlugs[i]) !in Renamed(SpreadValue(Lookup(access, "globals")), globalSlugs, formatName)
    ensures var r := ResolveAccess(access, collectionSlugs, globalSlugs, formatName);
      formatName(collectionSlugs[i]) in r
      && r[formatName(collectionSlugs[i])]
         == JObj(SpreadValue(Lookup(SpreadValue(Lookup(access, "collections")), collectionSlugs[i])))
  {
    FormattedEntry(SpreadValue(Lookup(access, "collections")), collectionSlugs, formatName, i);
  }

  /** A global's permissions always appear under its GraphQL name, copied from
      `access.globals[slug]`. */
  lemma GlobalUnderFormattedName(access: Doc, collectionSlugs: seq<string>, globalSlugs: seq<string>,
                                 formatName: string -> string, i: nat)
    requires Separated(globalSlugs, formatName)
    requires i < |globalSlugs|
    ensures var r := ResolveAccess(access, collectionSlugs, globalSlugs, formatName);
      formatName(globalSlugs[i]) in r
      && r[formatName(globalSlugs[i])] == JObj(SpreadValue(Lookup(SpreadValue(Lookup(access, "globals")), globalSlugs[i])))
  {
    FormattedEntry(SpreadValue(Lookup(access, "globals")), globalSlugs, formatName, i);
  }
}
