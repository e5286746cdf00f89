/** The persisted records the services work on: feeds, entries and images,
    with the image entity's SHA-256 lifecycle hook and an image store that
    keeps the (url, createdAt) uniqueness constraint. */
module Entities {
  import opened Wrappers

  type Bytes = seq<bv8>

  /** A subscribed feed, with the fields the services read and write. The
      image is held by the id of the image record it points to. */
  datatype Feed = Feed(id: nat, user: nat, url: string, link: Option<string>, image: Option<nat>)

  /** A stored feed entry. `pubDate` holds the text the entry's date is built
      from; date parsing is not modelled. */
  datatype Entry = Entry(
    guid: string,
    title: string,
    content: Option<string>,
    summary: string,
    link: Option<string>,
    pubDate: string,
    creator: Option<string>,
    categories: seq<string>,
    user: nat,
    feed: nat)

  /** An image record. `url` and `contentType` are required; `blob` is
      required by the table, but a record can exist in memory without one;
      `sha256sum` is filled in by the lifecycle hook; `etag` and
      `lastModified` are optional. */
  datatype Image = Image(
    id: nat,
    url: string,
    blob: Option<Bytes>,
    contentType: string,
    sha256sum: Option<string>,
    etag: Option<string>,
    lastModified: Option<string>,
    createdAt: int)

  // ---------------------------------------------------------------------
  // The before-create / before-update hook
  // ---------------------------------------------------------------------

  /** The hook: when a blob is present (a buffer object is truthy even when
      empty), `sha256sum` becomes its hex digest; otherwise it is left as it
      was. No other field changes. */
  function SetSha256Sum(img: Image, hash: Bytes -> string): (r: Image)
    ensures img.blob.Some? ==> r.sha256sum == Some(hash(img.blob.value))
    ensures img.blob.None? ==> r.sha256sum == img.sha256sum
    ensures r.(sha256sum := img.sha256sum) == img
  {
    if img.blob.Some? then img.(sha256sum := Some(hash(img.blob.value))) else img
  }

  /** The stored digest is the digest of the current blob. */
  predicate HashTracksBlob(img: Image, hash: Bytes -> string) {
    img.blob.Some? ==> img.sha256sum == Some(hash(img.blob.value))
  }

  /** After the hook the digest tracks the blob, whatever the record looked
      like before; and an image without a blob is left exactly as it was. */
  lemma HookEstablishesHash(img: Image, hash: Bytes -> string)
    ensures HashTracksBlob(SetSha256Sum(img, hash), hash)
    ensures img.blob.None? ==> SetSha256Sum(img, hash) == img
  {
  }

  /** Running the hook twice is running it once. */
  lemma HookIdempotent(img: Image, hash: Bytes -> string)
    ensures SetSha256Sum(SetSha256Sum(img, hash), hash) == SetSha256Sum(img, hash)
  {
  }

  // ---------------------------------------------------------------------
  // The image store
  // ---------------------------------------------------------------------

  /** The leftmost record satisfying `p`: the ORM's `findOne` over the
      store in insertion order. */
  function FindFirst(store: seq<Image>, p: Image -> bool): (r: Option<Image>)
    ensures r.Some? ==> r.value in store && p(r.value)
    ensures r.Some? ==> exists i :: (0 <= i < |store| && store[i] == r.value &&
      forall j :: 0 <= j < i ==> !p(store[j]))
    ensures r.None? <==> forall i :: 0 <= i < |store| ==> !p(store[i])
  {
    if |store| == 0 then None
    else if p(store[0]) then Some(store[0])
    else
      var rest := FindFirst(store[1..], p);
      assert forall i :: 1 <= i < |store| ==> store[i] == store[1..][i - 1];
      rest
  }

  /** `findOne(ImageEntity, { url })`. */
  function FindByUrl(store: seq<Image>, url: string): (r: Option<Image>)
    ensures r.Some? ==> r.value in store && r.value.url == url
    ensures r.None? <==> forall i :: 0 <= i < |store| ==> store[i].url != url
  {
    FindFirst(store, (img: Image) => img.url == url)
  }

  /** `findOne(ImageEntity, { sha256sum })`. */
  function FindBySha(store: seq<Image>, sha: string): (r: Option<Image>)
    ensures r.Some? ==> r.value in store && r.value.sha256sum == Some(sha)
    ensures r.None? <==> forall i :: 0 <= i < |store| ==> store[i].sha256sum != Some(sha)
  {
    FindFirst(store, (img: Image) => img.sha256sum == Some(sha))
  }

  /** No two records share both url and createdAt. */
  predicate UniqueUrlAndCreatedAt(store: seq<Image>) {
    forall i, j :: 0 <= i < j < |store| ==>
      store[i].url != store[j].url || store[i].createdAt != store[j].createdAt
  }

  /** What every stored image satisfies: the id is its 1-based insertion
      position, the blob is present, the digest is the blob's, and the
      (url, createdAt) constraint holds. */
  predicate ValidStore(store: seq<Image>, hash: Bytes -> string) {
    && (forall i :: 0 <= i < |store| ==> store[i].id == i + 1)
    && (forall i :: 0 <= i < |store| ==> store[i].blob.Some? && HashTracksBlob(store[i], hash))
    && UniqueUrlAndCreatedAt(store)
  }

  datatype InsertError = NotNullViolation | UniqueViolation

  /** Inserting a new record at flush: the record gets the next id, the
      before-create hook fills in its digest, and the database refuses a
      record without a blob or one whose (url, createdAt) is taken. */
  function Insert(store: seq<Image>, img: Image, hash: Bytes -> string): (r: Result<seq<Image>, InsertError>)
    ensures img.blob.None? ==> r == Failure(NotNullViolation)
    ensures r.Success? <==>
      img.blob.Some? && forall i :: 0 <= i < |store| ==> store[i].url != img.url || store[i].createdAt != img.createdAt
    ensures r.Success? ==> |r.value| == |store| + 1 && r.value[..|store|] == store
    ensures r.Success? ==> r.value[|store|] == SetSha256Sum(img.(id := |store| + 1), hash)
  {
    if img.blob.None? then Failure(NotNullViolation)
    else if exists i :: 0 <= i < |store| && store[i].url == img.url && store[i].createdAt == img.createdAt then
      Failure(UniqueViolation)
    else
      Success(store + [SetSha256Sum(img.(id := |store| + 1), hash)])
  }

  /** A successful insert keeps the store valid, whatever the inserted
      record's id and digest were before. */
  lemma InsertKeepsStoreValid(store: seq<Image>, img: Image, hash: Bytes -> string)
    requires ValidStore(store, hash)
    requires Insert(store, img, hash).Success?
    ensures ValidStore(Insert(store, img, hash).value, hash)
  {
    var s' := Insert(store, img, hash).value;
    assert forall i :: 0 <= i < |store| ==> s'[i] == store[i];
  }

  /** The hook runs again before every update, so replacing the blob of a
      stored record and saving it keeps the store valid: the digest follows
      the new blob. */
  lemma UpdateKeepsStoreValid(store: seq<Image>, k: int, blob: Bytes, hash: Bytes -> string)
    requires ValidStore(store, hash) && 0 <= k < |store|
    ensures ValidStore(store[k := SetSha256Sum(store[k].(blob := Some(blob)), hash)], hash)
    ensures store[k := SetSha256Sum(store[k].(blob := Some(blob)), hash)][k].sha256sum == Some(hash(blob))
  {
    var s' := store[k := SetSha256Sum(store[k].(blob := Some(blob)), hash)];
    assert forall i :: 0 <= i < |store| ==> s'[i].url == store[i].url && s'[i].createdAt == store[i].createdAt;
  }

  /** In a valid store, a lookup by digest finds a record whose blob hashes
      to that digest: the deduplication by digest relies on this. */
  lemma ShaLookupFindsSameContent(store: seq<Image>, hash: Bytes -> string, body: Bytes)
    requires ValidStore(store, hash)
    requires FindBySha(store, hash(body)).Some?
    ensures FindBySha(store, hash(body)).value.blob.Some?
    ensures hash(FindBySha(store, hash(body)).value.blob.value) == hash(body)
  {
    var found := FindBySha(store, hash(body)).value;
    var i :| 0 <= i < |store| && store[i] == found;
  }
}
