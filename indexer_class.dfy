/** The `Indexer` object: its stored statistics, the start-up decision and the
    index-building methods that update them in place. */
module Indexer {
  import opened Wrappers
  import opened Seqs
  import Parser
  import opened InvertedIndex

  /** The lexicon `build_inverted_index` returns for a corpus. */
  function CorpusLexicon(collection: seq<seq<Document>>, cfg: Parser.Config): seq<LexiconEntry> {
    Entries(BuildSpec(Parsed(collection, cfg)))
  }

  /** The rebuild raises before reaching the tables: the held count is None
      (TypeError) or the new count is 0 (ZeroDivisionError). */
  predicate CountFails(held: Option<int>, collection: seq<seq<Document>>) {
    held.None? || held.value + TotalDocs(collection) == 0
  }

  /** What the rebuild branch leaves, starting from the held count `held`:
      it crashes exactly on a None count, a zero total or a repeated
      (word, document) posting pair. The first two leave the cleared store.
      Otherwise the new statistics are set, and the store holds them, the
      documents and the lexicon, and the posting rows written before any
      repeat: the whole index when the rebuild succeeds. */
  ghost predicate RebuildLeaves(held: Option<int>, collection: seq<seq<Document>>, cfg: Parser.Config, hash: string,
                                outcome: Outcome, count: Option<int>, average: Option<real>, store: Store)
  {
    && outcome in {Rebuilt, Crashed}
    && (outcome == Crashed <==> CountFails(held, collection) || HasClash(FlatRows(CorpusLexicon(collection, cfg))))
    && (CountFails(held, collection) ==> store == EmptyStore)
    && (!CountFails(held, collection) ==>
          && count == Some(held.value + TotalDocs(collection))
          && average == Some(Average(TotalLength(Parsed(collection, cfg)), count.value))
          && store == WrittenStore(StoredInfo(count, average, Some(hash)), CorpusLexicon(collection, cfg)))
    && (outcome == Rebuilt ==> store == StoreOf(StoredInfo(count, average, Some(hash)), CorpusLexicon(collection, cfg)))
  }

  class Indexer {
    var collectionDocumentsNumber: Option<int>
    var averageDocumentLength: Option<real>
    var collectionHash: Option<string>
    var store: Store
    var outcome: Outcome

    /** `load_collection_related_information`: read the info row into the fields
        and report whether all three are truthy. */
    method LoadCollectionRelatedInformation() returns (ok: bool)
      modifies this
      ensures ok == StatsLoaded(store.info)
      ensures store == old(store) && outcome == old(outcome)
      ensures store.info.Table? && store.info.row.Some? ==>
                collectionDocumentsNumber == store.info.row.value.count
                && averageDocumentLength == store.info.row.value.average
                && collectionHash == store.info.row.value.hash
      ensures !(store.info.Table? && store.info.row.Some?) ==>
                collectionDocumentsNumber == old(collectionDocumentsNumber)
                && averageDocumentLength == old(averageDocumentLength)
                && collectionHash == old(collectionHash)
    {
      if store.info.NoTable? {
        return false;
      }
      if store.info.row.Some? {
        var info := store.info.row.value;
        collectionDocumentsNumber := info.count;
        averageDocumentLength := info.average;
        collectionHash := info.hash;
        if !Truthy(info) {
          return false;
        }
        return true;
      } else {
        return false;
      }
    }

    /** `has_collection_changed`: the fresh hash differs from the held one. */
    function HasCollectionChanged(collection: seq<seq<Document>>, hashOf: seq<seq<Document>> -> string): (changed: bool)
      reads this
      ensures !changed <==> collectionHash == Some(hashOf(collection))
    {
      Some(hashOf(collection)) != collectionHash
    }

    /** `build_inverted_index`: fold the corpus into the word dict, add the corpus
        size to the document count held so far and set the average length.
        `ok` is false where Python raises ZeroDivisionError. */
    method BuildInvertedIndex(collection: seq<seq<Document>>, cfg: Parser.Config)
      returns (lexicon: seq<LexiconEntry>, ok: bool)
      requires collectionDocumentsNumber.Some?
      modifies this
      ensures lexicon == Entries(BuildSpec(Parsed(collection, cfg)))
      ensures collectionDocumentsNumber == Some(old(collectionDocumentsNumber.value) + TotalDocs(collection))
      ensures ok <==> collectionDocumentsNumber.value != 0
      ensures ok ==> averageDocumentLength == Some(Average(TotalLength(Parsed(collection, cfg)), collectionDocumentsNumber.value))
      ensures !ok ==> averageDocumentLength == old(averageDocumentLength)
      ensures collectionHash == old(collectionHash) && store == old(store) && outcome == old(outcome)
    {
      var wordsLexicon, firstSeen, total, size := IndexCorpus(collection, cfg);
      collectionDocumentsNumber := Some(collectionDocumentsNumber.value + size);
      lexicon := Entries(Lex(firstSeen, wordsLexicon));
      var n := collectionDocumentsNumber.value;
      if n == 0 {
        return lexicon, false;
      }
      averageDocumentLength := Some(Average(total, n));
      ok := true;
    }

    /** `clear_db`: the database file is deleted, so every table is gone. */
    method ClearDb()
      modifies this
      ensures store == EmptyStore
      ensures collectionDocumentsNumber == old(collectionDocumentsNumber)
      ensures averageDocumentLength == old(averageDocumentLength)
      ensures collectionHash == old(collectionHash) && outcome == old(outcome)
    {
      store := EmptyStore;
    }

    /** `save_collection_related_informations`: the info table holds exactly one
        row, the current statistics. */
    method SaveCollectionRelatedInformations()
      modifies this
      ensures store == old(store).(info := Table(Some(StoredInfo(collectionDocumentsNumber, averageDocumentLength, collectionHash))))
      ensures collectionDocumentsNumber == old(collectionDocumentsNumber)
      ensures averageDocumentLength == old(averageDocumentLength)
      ensures collectionHash == old(collectionHash) && outcome == old(outcome)
    {
      store := store.(info := Table(Some(StoredInfo(collectionDocumentsNumber, averageDocumentLength, collectionHash))));
    }

    /** `create_inverted_index_tables` then `insert_lexicon`, on a database that
        `clear_db` has just emptied: the documents and lexicon tables hold the
        rows computed from the lexicon, and the postings table the rows before
        the first one whose (word, document) pair is already there, where
        DuckDB raises a ConstraintException. `ok` is false when it raises. */
    method PopulateTables(lexicon: seq<LexiconEntry>) returns (ok: bool)
      modifies this
      ensures ok <==> !HasClash(FlatRows(lexicon))
      ensures store == old(store).(documents := FirstLengths(FlatRefs(lexicon)),
                                   lexiconRows := LexiconRows(lexicon),
                                   postingRows := Inserted(FlatRows(lexicon)))
      ensures collectionDocumentsNumber == old(collectionDocumentsNumber)
      ensures averageDocumentLength == old(averageDocumentLength)
      ensures collectionHash == old(collectionHash) && outcome == old(outcome)
    {
      var documentsMap, lexiconRows, postingsData := InsertLexicon(lexicon);
      var written := Inserted(postingsData);
      InsertedSpec(postingsData);
      ok := written == postingsData;
      store := store.(documents := documentsMap, lexiconRows := lexiconRows, postingRows := written);
    }

    /** The rebuild branch of `__init__`: clear the store, build the index from
        the held document count, then save the statistics and the tables. A
        held count of None raises TypeError and a total count of 0 raises
        ZeroDivisionError; both leave the cleared store. A lexicon whose
        posting rows repeat a (word, document) pair raises in the postings
        insert, after the statistics, the documents and the lexicon are
        saved. */
    method RebuildIndex(collection: seq<seq<Document>>, cfg: Parser.Config, hashOf: seq<seq<Document>> -> string)
      modifies this
      ensures RebuildLeaves(old(collectionDocumentsNumber), collection, cfg, hashOf(collection),
                            outcome, collectionDocumentsNumber, averageDocumentLength, store)
    {
      ClearDb();
      if collectionDocumentsNumber.None? {
        // adding the corpus size to None raises TypeError
        outcome := Crashed;
        return;
      }
      ghost var start0 := collectionDocumentsNumber.value;
      var lexicon, ok := BuildInvertedIndex(collection, cfg);
      ghost var count := start0 + TotalDocs(collection);
      assert collectionDocumentsNumber == Some(count);
      if !ok {
        // `total / 0` raises ZeroDivisionError
        outcome := Crashed;
        return;
      }
      collectionHash := Some(hashOf(collection));
      SaveCollectionRelatedInformations();
      var inserted := PopulateTables(lexicon);
      assert collectionDocumentsNumber == Some(count);
      assert store == WrittenStore(StoredInfo(collectionDocumentsNumber, averageDocumentLength, collectionHash), lexicon);
      InsertedSpec(FlatRows(lexicon));
      if !inserted {
        // the postings insert raises a ConstraintException
        outcome := Crashed;
        return;
      }
      outcome := Rebuilt;
    }

    /** `__init__`: stop on an empty corpus; reuse the stored index when the
        stored statistics are all truthy and the corpus hash matches; otherwise
        clear the store, rebuild, and write statistics and index afresh. */
    constructor (collection: seq<seq<Document>>, cfg: Parser.Config, hashOf: seq<seq<Document>> -> string, stored: Store)
      ensures var d := StartupDecision(|collection|, stored.info, hashOf(collection));
        && (d == StopEmpty ==> outcome == EmptyCollection && store == stored && collectionHash == None)
        && (d == Reuse ==>
              && outcome == Reused && store == stored
              && collectionDocumentsNumber == stored.info.row.value.count
              && averageDocumentLength == stored.info.row.value.average
              && collectionHash == stored.info.row.value.hash)
        && (d == Rebuild ==>
              RebuildLeaves(StartingCount(stored.info), collection, cfg, hashOf(collection),
                            outcome, collectionDocumentsNumber, averageDocumentLength, store))
    {
      collectionDocumentsNumber := Some(0);
      averageDocumentLength := Some(0.0);
      collectionHash := None;
      store := stored;
      outcome := EmptyCollection;
      new;
      if |collection| == 0 {
        return;
      }
      var loaded := LoadCollectionRelatedInformation();
      if loaded {
        if !HasCollectionChanged(collection, hashOf) {
          outcome := Reused;
          return;
        }
      }
      assert collectionDocumentsNumber == StartingCount(stored.info);
      RebuildIndex(collection, cfg, hashOf);
    }
  }
}
