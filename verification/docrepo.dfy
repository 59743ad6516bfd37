/** The cache-aside document repository
    (repository/document_repository.go): documents live in the database,
    and Redis keeps a JSON copy of each one read, under
    "document:info:" + message id, for 24 hours. */
module DocRepo {
  import opened Wrappers
  import opened Text
  import opened LlmTypes

  datatype Document = Document(messageId: string, conversationId: string, content: string)

  /** The errors of the documents table, passed on unchanged. */
  datatype DbErr = NotFound | DbFailure

  const DocCacheKeyPrefix := "document:info:"
  const DocCacheExpire := 3600 * 24

  /** `getDocCacheKey`. */
  function DocCacheKey(messageId: string): (k: string)
    ensures HasPrefix(k, DocCacheKeyPrefix) && k[|DocCacheKeyPrefix|..] == messageId
  {
    DocCacheKeyPrefix + messageId
  }

  /** Distinct documents have distinct cache keys. */
  lemma DocCacheKeyInjective(a: string, b: string)
    requires DocCacheKey(a) == DocCacheKey(b)
    ensures a == b
  {
    assert a == DocCacheKey(a)[|DocCacheKeyPrefix|..];
  }

  /** The database table and the cache. */
  datatype Store = Store(db: map<string, Document>, cache: Kv)

  /** `json.Marshal` and `json.Unmarshal` of a document. */
  datatype Codec = Codec(encode: Document -> string, decode: string -> Option<Document>)

  /** The decoding reads back what the encoding wrote. */
  ghost predicate RoundTrips(codec: Codec) {
    forall d :: codec.decode(codec.encode(d)) == Some(d)
  }

  /** The cached copy of `messageId`, when the cache holds a non-empty
      value that decodes. */
  function Cached(store: Store, codec: Codec, messageId: string): Option<Document> {
    var key := DocCacheKey(messageId);
    if key in store.cache.entries && store.cache.entries[key].value != "" then
      codec.decode(store.cache.entries[key].value)
    else None
  }

  /** Every decodable cached copy is the database's current document. */
  ghost predicate Coherent(store: Store, codec: Codec) {
    forall id | Cached(store, codec, id).Some? :: id in store.db && Cached(store, codec, id).value == store.db[id]
  }

  /** `FindDocument`. A non-empty cached value that decodes is returned
      without touching the database. Otherwise (a miss, a failing read or
      an undecodable value) the database is asked; its error is returned
      and the cache left alone; a document found is written to the cache
      for 24 hours, and a failing write changes nothing but the cache. */
  function FindDocument(store: Store, codec: Codec, messageId: string,
                        getFails: bool, findFails: bool, setexFails: bool): (r: (Result<Document, DbErr>, Store))
    ensures !getFails && Cached(store, codec, messageId).Some? ==>
      r == (Ok(Cached(store, codec, messageId).value), store)
    ensures r.0.Err? ==> r.1 == store
    ensures r.1.db == store.db
    ensures (getFails || Cached(store, codec, messageId).None?) ==>
      && (findFails ==> r.0 == Err(DbFailure))
      && (!findFails && messageId !in store.db ==> r.0 == Err(NotFound))
      && (!findFails && messageId in store.db ==>
            && r.0 == Ok(store.db[messageId])
            && r.1.db == store.db
            && (setexFails ==> r.1 == store)
            && (!setexFails ==> r.1.cache.entries == store.cache.entries[DocCacheKey(messageId) :=
                                   KvEntry(codec.encode(store.db[messageId]), DocCacheExpire)]))
  {
    var key := DocCacheKey(messageId);
    var (json, ok) := store.cache.Get(key, getFails);
    if ok && json != "" && codec.decode(json).Some? then (Ok(codec.decode(json).value), store)
    else if findFails then (Err(DbFailure), store)
    else if messageId !in store.db then (Err(NotFound), store)
    else
      var doc := store.db[messageId];
      var (cache', _) := store.cache.Setex(key, codec.encode(doc), DocCacheExpire, setexFails);
      (Ok(doc), Store(store.db, cache'))
  }

  /** `UpdateDocumentContent`: the database first; on its failure the
      error is returned and nothing changes. Then the cached copy is
      deleted; a failing delete is only logged. An update of a missing row
      changes no row and is no error. */
  function UpdateDocumentContent(store: Store, messageId: string, content: string,
                                 updateFails: bool, delFails: bool): (r: (Result<(), DbErr>, Store))
    ensures updateFails <==> r.0.Err?
    ensures updateFails ==> r == (Err(DbFailure), store)
    ensures !updateFails && messageId in store.db ==>
      r.1.db == store.db[messageId := store.db[messageId].(content := content)]
    ensures !updateFails && messageId !in store.db ==> r.1.db == store.db
    ensures !updateFails && delFails ==> r.1.cache == store.cache
    ensures !updateFails && !delFails ==>
      r.1.cache.entries == store.cache.entries - {DocCacheKey(messageId)}
  {
    if updateFails then (Err(DbFailure), store)
    else
      var db' := if messageId in store.db then store.db[messageId := store.db[messageId].(content := content)] else store.db;
      var cache' := store.cache.Del(DocCacheKey(messageId), delFails);
      assert !delFails ==> cache'.entries == store.cache.entries - {DocCacheKey(messageId)};
      (Ok(()), Store(db', cache'))
  }

  /** With a codec that reads back what it writes, the cache is
      transparent: a coherent store answers every lookup with the
      database's document, and stays coherent. */
  lemma FindCoherent(store: Store, codec: Codec, messageId: string, getFails: bool, findFails: bool, setexFails: bool)
    requires RoundTrips(codec)
    requires Coherent(store, codec)
    ensures var r := FindDocument(store, codec, messageId, getFails, findFails, setexFails);
      && (r.0.Ok? ==> messageId in store.db && r.0.value == store.db[messageId])
      && Coherent(r.1, codec)
  {
    var r := FindDocument(store, codec, messageId, getFails, findFails, setexFails);
    if r.1 != store {
      var key := DocCacheKey(messageId);
      var doc := store.db[messageId];
      assert r.1.cache.entries == store.cache.entries[key := KvEntry(codec.encode(doc), DocCacheExpire)];
      forall id | Cached(r.1, codec, id).Some?
        ensures id in r.1.db && Cached(r.1, codec, id).value == r.1.db[id]
      {
        if id == messageId {
          assert codec.decode(codec.encode(doc)) == Some(doc);
        } else {
          if DocCacheKey(id) == key {
            DocCacheKeyInjective(id, messageId);
          }
          assert Cached(r.1, codec, id) == Cached(store, codec, id);
        }
      }
    } else if r.0.Ok? && !getFails && Cached(store, codec, messageId).Some? {
      assert r.0.value == Cached(store, codec, messageId).value;
    }
  }

  /** An update whose invalidation succeeds keeps the store coherent. */
  lemma UpdateCoherent(store: Store, codec: Codec, messageId: string, content: string)
    requires Coherent(store, codec)
    ensures Coherent(UpdateDocumentContent(store, messageId, content, false, false).1, codec)
  {
    var s := UpdateDocumentContent(store, messageId, content, false, false).1;
    forall id | Cached(s, codec, id).Some?
      ensures id in s.db && Cached(s, codec, id).value == s.db[id]
    {
      if DocCacheKey(id) == DocCacheKey(messageId) {
        assert DocCacheKey(messageId) !in s.cache.entries;
      } else {
        assert Cached(s, codec, id) == Cached(store, codec, id);
      }
    }
  }

  /** Read your write: after an update whose invalidation succeeded, the
      next lookup of that document returns the new content, whatever the
      cache held before. */
  lemma {:induction false} ReadAfterUpdate(store: Store, codec: Codec, messageId: string, content: string,
                                           getFails: bool, setexFails: bool)
    requires messageId in store.db
    ensures var s := UpdateDocumentContent(store, messageId, content, false, false).1;
      var r := FindDocument(s, codec, messageId, getFails, false, setexFails);
      r.0.Ok? && r.0.value == store.db[messageId].(content := content)
  {
    var s := UpdateDocumentContent(store, messageId, content, false, false).1;
    assert DocCacheKey(messageId) !in s.cache.entries;
    assert Cached(s, codec, messageId).None?;
  }

  /** When the invalidation fails, a cached copy survives the update and the
      next lookup returns the OLD content until the copy expires. */
  lemma StaleAfterFailedInvalidation(store: Store, codec: Codec, messageId: string, content: string)
    requires RoundTrips(codec)
    requires messageId in store.db && store.db[messageId].content != content
    requires DocCacheKey(messageId) in store.cache.entries
    requires store.cache.entries[DocCacheKey(messageId)].value == codec.encode(store.db[messageId])
    requires codec.encode(store.db[messageId]) != ""
    ensures var s := UpdateDocumentContent(store, messageId, content, false, true).1;
      var r := FindDocument(s, codec, messageId, false, false, false);
      && s.db[messageId].content == content
      && r.0 == Ok(store.db[messageId])
  {
    var before := store.db[messageId];
    assert codec.decode(codec.encode(before)) == Some(before);
    var s := UpdateDocumentContent(store, messageId, content, false, true).1;
    assert s.cache == store.cache;
    assert Cached(s, codec, messageId) == Some(before);
  }
}
