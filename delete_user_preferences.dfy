/** Deleting the preferences of removed users: the `deleteMany` requests issued on
    the `payload-preferences` collection, in order. For an auth-enabled collection
    a request by owner comes first; a request by preference key (one key
    `collection-<slug>-<id>` per id, in the order of the ids) is always issued. */
module UserPreferences {
  import opened Common

  /** A user id, as a string or a number. */
  datatype UserId = StrId(s: string) | NumId(n: int)

  datatype CollectionConfig = CollectionConfig(slug: string, auth: bool)

  datatype Constraint =
    | ByOwner(users: seq<UserId>, userCollectionEquals: string)  // `user in ids` and `userCollection equals ...`
    | ByKey(keys: seq<string>)                                   // `key in keys`

  datatype DeleteMany = DeleteMany(collection: string, where: Constraint)

  const PreferencesCollection := "payload-preferences"

  /** The text the owner request compares `userCollection` with, as the source has it. */
  const WrittenUserCollection := "collectionConfig.slug,"

  /** `${id}` inside a template string. */
  function IdText(id: UserId): string {
    match id
    case StrId(s) => s
    case NumId(n) => IntToString(n)
  }

  function KeyPrefix(slug: string): string { "collection-" + slug + "-" }

  /** The preference key of one user of a collection. */
  function PreferenceKey(slug: string, id: UserId): string {
    KeyPrefix(slug) + IdText(id)
  }

  /** The id text a key of this collection belongs to; the partner of PreferenceKey. */
  function KeyOwner(slug: string, key: string): Option<string> {
    var prefix := KeyPrefix(slug);
    if |prefix| <= |key| && key[..|prefix|] == prefix then Some(key[|prefix|..]) else None
  }

  lemma KeyOwnerRoundTrip(slug: string, id: UserId)
    ensures KeyOwner(slug, PreferenceKey(slug, id)) == Some(IdText(id))
  {
    var prefix := KeyPrefix(slug);
    var key := PreferenceKey(slug, id);
    assert key[..|prefix|] == prefix;
    assert key[|prefix|..] == IdText(id);
  }

  /** `ids.map(id => `collection-${slug}-${id}`)`. */
  function PreferenceKeys(slug: string, ids: seq<UserId>): (keys: seq<string>) {
    seq(|ids|, i requires 0 <= i < |ids| => PreferenceKey(slug, ids[i]))
  }

  /** The requests as the source writes them. */
  function DeleteUserPreferences(ids: seq<UserId>, config: CollectionConfig): seq<DeleteMany> {
    (if config.auth then [DeleteMany(PreferencesCollection, ByOwner(ids, WrittenUserCollection))] else [])
    + [DeleteMany(PreferencesCollection, ByKey(PreferenceKeys(config.slug, ids)))]
  }

  /** The key request is always issued, last, on the preferences collection; its
      keys follow the ids one for one and in order; an auth-enabled collection adds
      exactly one request before it, by owner over the same ids. */
  lemma RequestsIssued(ids: seq<UserId>, config: CollectionConfig)
    ensures var reqs := DeleteUserPreferences(ids, config);
      |reqs| == (if config.auth then 2 else 1)
      && (forall r :: r in reqs ==> r.collection == PreferencesCollection)
      && reqs[|reqs| - 1].where.ByKey?
      && |reqs[|reqs| - 1].where.keys| == |ids|
      && (forall i :: 0 <= i < |ids| ==>
            reqs[|reqs| - 1].where.keys[i] == "collection-" + config.slug + "-" + IdText(ids[i]))
      && (config.auth ==> reqs[0].where == ByOwner(ids, WrittenUserCollection))
  {
  }

  /** A key is targeted exactly when it is the key of one of the ids; no ids, no keys. */
  lemma KeyTargetedIffOwnedById(ids: seq<UserId>, slug: string, key: string)
    ensures key in PreferenceKeys(slug, ids) <==> exists i :: 0 <= i < |ids| && key == PreferenceKey(slug, ids[i])
    ensures ids == [] ==> PreferenceKeys(slug, ids) == []
  {
    var keys := PreferenceKeys(slug, ids);
    if key in keys {
      var i :| 0 <= i < |keys| && keys[i] == key;
      assert key == PreferenceKey(slug, ids[i]);
    }
    if exists i :: 0 <= i < |ids| && key == PreferenceKey(slug, ids[i]) {
      var i :| 0 <= i < |ids| && key == PreferenceKey(slug, ids[i]);
      assert keys[i] == key;
    }
  }

  /** The owner request compares `userCollection` with a fixed text, never with the
      collection's slug: for the `users` collection it matches no preference that
      the `users` collection owns. */
  lemma OwnerRequestIgnoresSlug()
    ensures var reqs := DeleteUserPreferences([NumId(42)], CollectionConfig("users", true));
      reqs[0].where.userCollectionEquals == "collectionConfig.slug,"
      && reqs[0].where.userCollectionEquals != "users"
  {
  }

  /** The requests with the owner constraint on the collection's own slug. */
  function DeleteUserPreferencesIntended(ids: seq<UserId>, config: CollectionConfig): seq<DeleteMany> {
    (if config.auth then [DeleteMany(PreferencesCollection, ByOwner(ids, config.slug))] else [])
    + [DeleteMany(PreferencesCollection, ByKey(PreferenceKeys(config.slug, ids)))]
  }

  /** With the correction, deleting user 42 of an auth-enabled collection removes
      the preferences that user owns in that collection, and the key request is
      unchanged. */
  lemma IntendedOwnerRequestUsesSlug(ids: seq<UserId>, config: CollectionConfig)
    requires config.auth
    ensures var reqs := DeleteUserPreferencesIntended(ids, config);
      |reqs| == 2 && reqs[0] == DeleteMany(PreferencesCollection, ByOwner(ids, config.slug))
      && reqs[1] == DeleteUserPreferences(ids, config)[1]
  {
  }
}
