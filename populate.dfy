/** Rich-text population of one embedded reference: the request-scoped loader is
    asked for the document under a nine-part key, and exactly one entry of the
    caller's object is written, with the document found or with `null`.

    The loader key is modelled as the JSON array before `JSON.stringify`; the
    loader itself is a function of that key (what it memoises per request) that
    answers with a document, with nothing, or by throwing. */
module RichTextPopulate {
  import opened Common

  /** The request fields the key reads; an unset one is JNull (`undefined` serialises as null). */
  datatype Request = Request(transactionID: Json, locale: Json, fallbackLocale: Json)

  datatype PopulateArgs = PopulateArgs(
    id: string,
    collectionSlug: string,
    key: string,                   // the property of `data` to write
    overrideAccess: Option<bool>,
    depth: nat,
    currentDepth: nat,
    showHiddenFields: bool,
    req: Request)

  /** The lookup a key stands for, component by component. */
  datatype LoadRequest = LoadRequest(
    transactionID: Json,
    slug: string,
    id: string,
    depth: nat,
    currentDepth: nat,
    locale: Json,
    fallbackLocale: Json,
    overrideAccess: bool,
    showHiddenFields: bool)

  /** The loader key: the nine-element array handed to `JSON.stringify`. */
  function LoaderKey(a: PopulateArgs): (key: seq<Json>)
    ensures |key| == 9
  {
    [a.req.transactionID,
     JStr(a.collectionSlug),
     JStr(a.id),
     JNum(a.depth),
     JNum(a.currentDepth + 1),
     a.req.locale,
     a.req.fallbackLocale,
     JBool(a.overrideAccess.GetOr(false)),
     JBool(a.showHiddenFields)]
  }

  /** Reads a key back as the lookup it names; the partner of LoaderKey. */
  function DecodeKey(key: seq<Json>): Option<LoadRequest> {
    if |key| == 9 && key[1].JStr? && key[2].JStr? && key[3].JNum? && key[3].n >= 0
       && key[4].JNum? && key[4].n >= 0 && key[7].JBool? && key[8].JBool?
    then Some(LoadRequest(key[0], key[1].s, key[2].s, key[3].n, key[4].n, key[5], key[6], key[7].b, key[8].b))
    else None
  }

  /** The lookup that populate asks for: one hop deeper than the caller, and
      `overrideAccess` defaulting to false. */
  function Requested(a: PopulateArgs): LoadRequest {
    LoadRequest(a.req.transactionID, a.collectionSlug, a.id, a.depth, a.currentDepth + 1,
                a.req.locale, a.req.fallbackLocale, a.overrideAccess.GetOr(false), a.showHiddenFields)
  }

  /** The key holds, in order, the transaction, slug, id, depth, `currentDepth + 1`,
      locale, fallback locale, `overrideAccess` (false when undefined) and
      `showHiddenFields`: reading it back gives exactly that lookup. */
  lemma KeyRoundTrip(a: PopulateArgs)
    ensures DecodeKey(LoaderKey(a)) == Some(Requested(a))
    ensures LoaderKey(a)[4] == JNum(a.currentDepth + 1)
    ensures a.overrideAccess.None? ==> LoaderKey(a)[7] == JBool(false)
    ensures a.overrideAccess.Some? ==> LoaderKey(a)[7] == JBool(a.overrideAccess.value)
  {
  }

  /** Two populate calls share a loader entry exactly when they ask for the same
      lookup; in particular an undefined `overrideAccess` shares the entry of `false`. */
  lemma SameKeyIffSameLookup(a: PopulateArgs, b: PopulateArgs)
    ensures LoaderKey(a) == LoaderKey(b) <==> Requested(a) == Requested(b)
  {
    if LoaderKey(a) == LoaderKey(b) {
      KeyRoundTrip(a);
      KeyRoundTrip(b);
    }
  }

  /** The value written for a loader answer: the document when one is found, null otherwise. */
  function Populated(found: Option<Doc>): (v: Json)
    ensures v == JNull <==> found.None?
    ensures found.Some? ==> v == JObj(found.value)
  {
    match found
    case Some(doc) => JObj(doc)
    case None => JNull
  }

  /** The caller's object (`data`), written in place. */
  class DataRef {
    var entries: map<string, Json>

    constructor (entries: map<string, Json>)
      ensures this.entries == entries
    {
      this.entries := entries;
    }
  }

  /** Populate one reference: load it under its key and write `data[key]`. A
      loader that throws makes populate reject, with `data` left as it was. */
  method Populate(data: DataRef, load: seq<Json> -> Outcome<Option<Doc>>, a: PopulateArgs)
    returns (error: Option<Error>)
    modifies data
    ensures load(LoaderKey(a)).Thrown? ==> error == Some(load(LoaderKey(a)).error) && data.entries == old(data.entries)
    ensures load(LoaderKey(a)).Ok? ==>
      (error.None? && a.key in data.entries && data.entries[a.key] == Populated(load(LoaderKey(a)).value))
    ensures forall k :: k != a.key ==> (k in data.entries <==> k in old(data.entries))
    ensures forall k :: k != a.key && k in old(data.entries) ==> data.entries[k] == old(data.entries)[k]
  {
    var loaded := load(LoaderKey(a));
    if loaded.Thrown? {
      return Some(loaded.error);
    }
    var doc := loaded.value;
    if doc.Some? {
      data.entries := data.entries[a.key := JObj(doc.value)];
    } else {
      data.entries := data.entries[a.key := JNull];
    }
    return None;
  }
}
