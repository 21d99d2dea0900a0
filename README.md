# A verified model of a game search engine's core

The system crawls game stores (itch.io, Game Jolt) into JSON collections,
cleans them, and serves a BM25 search over an inverted index. A web page
guides test users through search challenges, and their usability
questionnaires are scored.

This project models the core of that system in Dafny and proves what each
part promises:

- the text parser (tokeniser, stopword removal, stemming);
- the inverted-index builder and its `Indexer` object (start-up decision,
  statistics, table rows, lookups);
- BM25 score accumulation, the top-K match list and the read-back of
  documents;
- the de-duplication of the cleaning script;
- the robots.txt reader and the append-if-absent save of a scraped game;
- the itch.io sitemap crawl (page filter, resume point, fetch budget) and
  its info-panel reader;
- the Game Jolt tag, genre, category, price, platform, screenshot and link
  derivations;
- the usability-survey scores and averages;
- the challenge progression of the search page.

Hashing, stemming, stopword lists, float parsing, network fetches, file
reads and BM25's word score are parameters of the model. Scores are `real`.
Python dicts whose order matters are an insertion-order sequence paired
with a map.

Modules, one per source file: `Parser`, `InvertedIndex` and `Indexer`
(indexer), `Bm25`, `Clean`, `Source`, `Itch`, `Gamejolt`, `Survey`
(session) and `Challenges`. `Wrappers`, `Text` and `Seqs` hold the shared
option type, ASCII string helpers and sequence helpers.

## Model

| member | source | states |
|---|---|---|
| Parser.RemovePunctuation | app/engine/parser.py:25 | the result is no longer than the text, holds no punctuation, and only characters of the text |
| Parser.RemovePunctuationAppend | app/engine/parser.py:25 | punctuation is deleted character by character: the result for a concatenation is the concatenation of the results |
| Parser.RemovePunctuationChar | app/engine/parser.py:25 | one character is deleted exactly when it is punctuation; every other character, whitespace included, is kept |
| Parser.Split | app/engine/parser.py:28 | whitespace splitting yields non-empty, blank-free tokens whose concatenation is the text's non-blank characters |
| Parser.SplitWord | app/engine/parser.py:28 | a non-empty text without whitespace is one piece, itself |
| Parser.SplitAtSpace | app/engine/parser.py:28 | a whitespace character separates pieces: the text on each side is split apart and the pieces keep their order |
| Parser.TokenizeSpec | app/engine/parser.py:20-28 | every token is non-empty, lower-case and free of punctuation and blanks, and the tokens spell the text's letters lower-cased |
| Parser.TokenizeAtSpace | app/engine/parser.py:20-28 | the tokens on either side of a whitespace character are tokenised apart and kept in text order |
| Parser.TokenizeWord | app/engine/parser.py:20-28 | a whitespace-free text is one token, lower-cased with its punctuation deleted, or none when it is all punctuation |
| Parser.NonSpaceOfStripped | app/engine/parser.py:25-28 | dropping punctuation and then blanks keeps exactly the characters that are neither |
| Parser.NoLettersNoWords | app/engine/parser.py:20-50 | a text of only punctuation and blanks yields no tokens and no words |
| Parser.RemoveStopwords | app/engine/parser.py:30-36 | the kept words are the input words outside the stop set, and every such word is kept |
| Parser.RemoveStopwordsAppend | app/engine/parser.py:30-36 | the filter keeps order: the kept words of a concatenation are the kept words of each part, in order |
| Parser.RemoveStopwordsOne | app/engine/parser.py:36 | one word is kept exactly when it is not a stopword |
| Parser.RemoveStopwordsIdempotent | app/engine/parser.py:36 | removing stopwords twice equals removing them once |
| Parser.RemoveStopwordsCount | app/engine/parser.py:36 | a non-stopword keeps all its occurrences; a stopword keeps none |
| Parser.Stem | app/engine/parser.py:38-43 | one stem per word, position by position |
| Parser.StemAppend | app/engine/parser.py:43 | stemming works word by word, so it distributes over concatenation |
| Parser.ParseTextToWordsSpec | app/engine/parser.py:45-50 | there are no more words than tokens, and each word is the stem of a token outside the stop set |
| Parser.ParseTextToWordsAtSpace | app/engine/parser.py:45-50 | the words on either side of a whitespace character are parsed apart and kept in text order |
| Parser.ParseWord | app/engine/parser.py:45-50 | a whitespace-free text gives the stem of its lower-cased letters, or nothing when they are empty or a stopword |
| InvertedIndex.DocPostingsShape | app/engine/indexer.py:207-219 | a document gives one posting per distinct parsed word, each with that word's count and the document's parsed length |
| InvertedIndex.DocPostingsSum | app/engine/indexer.py:208-219 | a document's in-document frequencies add up to its parsed length |
| InvertedIndex.FirstsDocPostings | app/engine/indexer.py:211-214 | a document's postings follow its distinct words in first-occurrence order |
| InvertedIndex.BuildAll | app/engine/indexer.py:199-229 | the builder is a fold of the per-posting update over every (word, posting) pair of the corpus in processing order |
| InvertedIndex.BuildValid | app/engine/indexer.py:214-229 | every word is listed once, its entry is filed under it with non-empty postings, and its collection frequency is the sum of its postings' frequencies |
| InvertedIndex.BuildPostings | app/engine/indexer.py:199-241 | each word's postings are exactly one per document containing it, sub-collections in order and documents by position, with count and length |
| InvertedIndex.BuildOrder | app/engine/indexer.py:200-241 | the lexicon lists the words in the order the builder first meets them |
| InvertedIndex.SharedSourceNameDuplicatesKey | app/engine/indexer.py:206-217 | the same document in two sub-collections with one source name yields two postings with the same key |
| InvertedIndex.SharedSourceNameClashes | app/engine/indexer.py:275-358 | the same document in two sub-collections with one source name makes the posting rows repeat a (word, document) pair, which the postings table's UNIQUE constraint forbids |
| InvertedIndex.IndexDocument | app/engine/indexer.py:210-229 | the per-document loop files every distinct word with its count |
| InvertedIndex.IndexCollection | app/engine/indexer.py:202-229 | the per-sub-collection loop indexes each document under its position and sums the parsed lengths |
| InvertedIndex.IndexCorpus | app/engine/indexer.py:199-241 | the build loop yields the reference lexicon, the total parsed length and the document count |
| InvertedIndex.FirstLengthsKeys | app/engine/indexer.py:304-311 | the document map lists each key once, in insertion order |
| InvertedIndex.FirstLengthsDomain | app/engine/indexer.py:304-311 | the document map holds exactly the keys some posting refers to |
| InvertedIndex.FirstLengthsFirst | app/engine/indexer.py:310-311 | a document keeps the words length of the first posting that refers to it |
| InvertedIndex.CollectDocuments | app/engine/indexer.py:304-311 | the first loop of the insert builds that document map |
| InvertedIndex.CollectPostings | app/engine/indexer.py:334-344 | the last loop gives one row per posting, entries in lexicon order |
| InvertedIndex.InsertLexicon | app/engine/indexer.py:298-358 | the three row sets written: the document map, one (word, frequency) row per entry, one row per posting |
| InvertedIndex.InsertedSpec | app/engine/indexer.py:275-358 | the postings written are the longest prefix of the rows that breaks no UNIQUE(lexicon_id, document_id) pair: all of them exactly when no pair repeats, otherwise up to the first repeat |
| InvertedIndex.EntryKeyTwiceClashes | app/engine/indexer.py:275-358 | two postings of one word with the same document key make the postings insert break the constraint |
| InvertedIndex.PartialIndexReused | app/engine/indexer.py:82-100 | the statistics are saved before the tables, so a store left by a failed insert is reused by the next start-up on the same corpus when they are truthy |
| InvertedIndex.FlatRowsRefs | app/engine/indexer.py:334-344 | posting rows and posting documents line up one to one |
| InvertedIndex.BuiltDocumentFrequency | app/engine/indexer.py:424-434 | on a freshly built store a word's document frequency is its number of postings, 0 for an unknown word |
| InvertedIndex.DocumentsForWordCount | app/engine/indexer.py:436-446 | when every posting's document is stored, the lookup returns one record per posting row of the word |
| InvertedIndex.StartupDecision | app/engine/indexer.py:57-108 | an empty corpus stops; the stored index is reused exactly when all three stored statistics are truthy and the stored hash equals the corpus hash |
| Indexer.Indexer.LoadCollectionRelatedInformation | app/engine/indexer.py:138-162 | succeeds exactly when a row exists with three truthy statistics; a row is copied into the fields even when rejected |
| Indexer.Indexer.HasCollectionChanged | app/engine/indexer.py:110-115 | unchanged exactly when the held hash equals the corpus hash |
| Indexer.Indexer.BuildInvertedIndex | app/engine/indexer.py:187-241 | returns the reference lexicon, adds the corpus size to the held count, and sets the mean length unless the count is 0 |
| Indexer.Indexer.ClearDb | app/engine/indexer.py:126-136 | every table is gone; the statistics are kept |
| Indexer.Indexer.SaveCollectionRelatedInformations | app/engine/indexer.py:164-185 | the info table holds exactly the current statistics |
| Indexer.Indexer.PopulateTables | app/engine/indexer.py:243-358 | the documents and lexicon tables hold the rows computed from the lexicon; the postings table holds the rows before the first repeated (word, document) pair, and the call fails exactly when there is one |
| Indexer.Indexer.RebuildIndex | app/engine/indexer.py:87-107 | a None count or a zero total crashes and leaves the store empty; a repeated (word, document) posting pair crashes after the statistics, documents, lexicon and the postings before it are saved; otherwise the store holds the new statistics, hash and index |
| Indexer.Indexer.constructor | app/engine/indexer.py:57-108 | the start-up outcome follows the decision; reuse keeps the store and takes the stored count, average and hash; a rebuild starts from the stored count, including a rejected row's count, and crashes exactly on a None count, a zero total or a repeated (word, document) posting pair, leaving the partial index in the last case |
| Bm25.AddScoreValid | app/engine/bm25.py:99-103 | one update keeps each key listed once and notes a new key at the end |
| Bm25.AddAllSpec | app/engine/bm25.py:96-103 | folding pairs keeps the dict valid, notes new keys in first-appearance order, and adds to each key the sum of its scores |
| Bm25.ScoresOfSpec | app/engine/bm25.py:91-103 | each key's total is the sum of the word score over every (query-word occurrence, posting) pair with that key; keys in first-appearance order |
| Bm25.ScoredKeys | app/engine/bm25.py:92-103 | a key is scored exactly when some query word has a posting with that key |
| Bm25.NoScoresIffNoPostings | app/engine/bm25.py:107-109 | nothing is scored exactly when no query word has a posting |
| Bm25.ScoreWord | app/engine/bm25.py:96-103 | the inner loop adds one query word's terms |
| Bm25.AccumulateScores | app/engine/bm25.py:91-103 | the scoring loop builds that dict |
| Bm25.PlaceLength | app/engine/bm25.py:114-139 | the match list grows by one below capacity and keeps its length at capacity |
| Bm25.TopKLength | app/engine/bm25.py:114-139 | after n items the list holds min(n + 1, max(k, 1)) entries, never more than max(k, 1) |
| Bm25.FirstEntryTwice | app/engine/bm25.py:116-139 | with k >= 2 the first scored document enters the list twice |
| Bm25.PlaceFullAllGreater | app/engine/bm25.py:119-125 | a full list whose entries all score strictly more is left unchanged |
| Bm25.PlaceFull | app/engine/bm25.py:119-139 | on a full list the entry is written at the first position scoring no more, later entries shift right and the last drops out |
| Bm25.PlaceNotFull | app/engine/bm25.py:116-139 | below capacity only the first entry is compared: the entry is appended or put in front |
| Bm25.NotFullAppendUnsorted | app/engine/bm25.py:120-124 | the appended entry can break the order of the list |
| Bm25.TopKFrom | app/engine/bm25.py:114-139 | every match is one of the scored items |
| Bm25.SlideIn | app/engine/bm25.py:128-134 | the swap chain writes the entry at i, shifts the rest right and returns the displaced last entry |
| Bm25.PlaceMatch | app/engine/bm25.py:116-139 | one pass of the outer loop places the entry as specified |
| Bm25.SelectMatches | app/engine/bm25.py:114-139 | the outer loop builds the top-K list |
| Bm25.SlotFromLast | app/engine/bm25.py:62-67 | a slot is filled from the last collection read that is long enough for its index |
| Bm25.SlotFromNone | app/engine/bm25.py:60-67 | a slot stays None exactly when no collection read is long enough |
| Bm25.LaterCollectionWins | app/engine/bm25.py:65-67 | the key's collection is never checked, so a later collection's document can fill the slot |
| Bm25.CollectionNames | app/engine/bm25.py:51-57 | the collection names once each, in order of first appearance |
| Bm25.GetCollectionDocuments | app/engine/bm25.py:40-69 | one slot per ranked key, filled collection by collection |
| Bm25.QueryResultLength | app/engine/bm25.py:107-146 | the result is empty exactly when no query word has a posting, and never longer than max(k, 1) |
| Bm25.QuerySourcesDocuments | app/engine/bm25.py:71-146 | scores, keeps the best k and reads them back |
| Clean.HasHeadIff | collection/clean.py:61 | the truncation indexes a character only when the text is non-empty and does not start with `?` |
| Clean.BeforeQSpec | collection/clean.py:54-61 | the result is a prefix without `?`: the part before the first `?`, less exactly one trailing `/` |
| Clean.BeforeQOneSlash | collection/clean.py:61 | only one trailing slash is removed |
| Clean.TruncateQuery | collection/clean.py:55-61 | a URL with a query string truncates to the part before it, with or without a `/` before the `?` |
| Clean.Dedupe | collection/clean.py:70-86 | every kept document is an input document |
| Clean.DedupePairs | collection/clean.py:70-86 | the kept (title, URL) pairs are the input pairs once each in first-appearance order, and every input pair is kept |
| Clean.DedupeIsFirstOccurrences | collection/clean.py:72-86 | comparing with the kept documents is comparing with all earlier ones: the result is the first occurrences |
| Clean.IsPresent | collection/clean.py:73-83 | the inner loop finds a kept document with the same pair exactly when there is one |
| Clean.DedupeDocuments | collection/clean.py:70-86 | the filter loop builds the de-duplicated list |
| Source.Lines | scraper/sources/source.py:113 | a text always has at least one line |
| Source.LinesWord | scraper/sources/source.py:113 | a text without line breaks is one line, itself |
| Source.LinesAtBreak | scraper/sources/source.py:113 | a line break separates lines: the text on each side is cut apart and the lines keep their order |
| Source.LinesHaveNoBreaks | scraper/sources/source.py:113 | no line holds a line-break character |
| Source.DisallowPathsAppend | scraper/sources/source.py:112-127 | reading two parts of a file collects both parts' paths in order |
| Source.DisallowPathsSpec | scraper/sources/source.py:123-127 | the collected paths are exactly the non-empty trimmed `Disallow:` values, in file order |
| Source.LastSitemapSpec | scraper/sources/source.py:116-121 | the stored sitemap comes from a `Sitemap:` line after which none has a value, and exists exactly when one does |
| Source.OtherRecordsIgnored | scraper/sources/source.py:113-127 | `Allow:` and `User-agent:` lines change nothing |
| Source.SourceWebsite.ParseRobotsTxt | scraper/sources/source.py:101-135 | an HTTP error changes nothing; otherwise the paths are replaced, the sitemap recorded and the site warmed |
| Source.SourceWebsite.ReadRecords | scraper/sources/source.py:112-127 | the line loop returns the paths and stores the last sitemap |
| Source.NewDocument | scraper/sources/source.py:154-163 | the id is the hash of the collection name, URL and title; the source fields are set |
| Source.SavedKeepsIdsUnique | scraper/sources/source.py:175-179 | appending keeps ids unique, and afterwards the id is present |
| Source.SaveTwiceNoOp | scraper/sources/source.py:155-184 | saving the same game twice writes the file once |
| Source.IdStringCollision | scraper/sources/source.py:155 | dashes make the id string ambiguous, so a different game can be taken for a stored one |
| Source.SourceWebsite.SaveMetadataToCollection | scraper/sources/source.py:137-184 | an absent or unreadable file reads as empty; the document is appended unless its id is stored |
| Itch.TrailingDigits | scraper/sources/itch.py:167-168 | counts exactly the trailing digits |
| Itch.IsGamesPageSound | scraper/sources/itch.py:167-168 | every accepted URL ends in `/games.xml` or in `/games_` plus digits plus `.xml` |
| Itch.IsGamesPageComplete | scraper/sources/itch.py:167-168 | every URL of either form is accepted |
| Itch.GamesPageNoDigits | scraper/sources/itch.py:167-168 | `/games_.xml` without digits is rejected |
| Itch.GamePages | scraper/sources/itch.py:167-168 | the filter keeps exactly the game-list pages, in sitemap order |
| Itch.AfterFirst | scraper/sources/itch.py:199-214 | the URLs after the first occurrence of the resume point, none when it is absent |
| Itch.PageRunTimes | scraper/sources/itch.py:200-205 | the page loop takes min(budget, URLs) URLs and as much budget when the limit is on |
| Itch.PageRunVisited | scraper/sources/itch.py:199-218 | the page loop hands on exactly the consumed URLs after the resume point, or all of them when none is set |
| Itch.PageVisitBudget | scraper/sources/itch.py:185-222 | one page keeps the budget non-negative, only appends, and hands on no more games than the budget it takes |
| Itch.SitemapBudget | scraper/sources/itch.py:171-180 | over the sitemap the budget stays non-negative, games never outnumber units spent, and the budget is untouched with the limit off |
| Itch.SkippedUrlsSpendBudget | scraper/sources/itch.py:200-211 | skipped URLs spend budget too |
| Itch.ResumePointPerPage | scraper/sources/itch.py:199 | the resume flag restarts for each page |
| Itch.SitemapUrlNeverSet | scraper/sources/itch.py:155 | as written nothing is crawled; the stored sitemap URL would crawl its game pages |
| Itch.SourceItch.ParseGameUrlsPage | scraper/sources/itch.py:185-222 | one page visit as specified |
| Itch.SourceItch.CrawlPages | scraper/sources/itch.py:171-180 | the page loop of the sitemap as specified |
| Itch.SourceItch.ParseSitemapAsWritten | scraper/sources/itch.py:153-183 | the crawl from the never-assigned attribute, which crawls nothing |
| Itch.SourceItch.ParseSitemap | scraper/sources/itch.py:153-183 | the crawl from the sitemap URL robots.txt stored |
| Itch.Values | scraper/sources/itch.py:86-87 | a cell's values are non-empty |
| Itch.NoCommas | scraper/sources/itch.py:94-110 | a list field is the values other than `,` |
| Itch.NoCommasAppend | scraper/sources/itch.py:94-110 | the filter keeps order: the values kept from a concatenation are those kept from each part, in order |
| Itch.NoCommasOne | scraper/sources/itch.py:94-110 | one value is kept exactly when it is not `,` |
| Itch.IgnoredRows | scraper/sources/itch.py:82-112 | rows without a key, and `author` rows, change nothing |
| Itch.CategoryBySubstring | scraper/sources/itch.py:107-108 | any other key occurring in "category" sets the category |
| Itch.BlankKeyIsCategory | scraper/sources/itch.py:81-108 | a blank key sets the category |
| Itch.ExtraKey | scraper/sources/itch.py:113-115 | an unnamed key goes into the extra data with spaces turned into dashes |
| Itch.StatusNoneIff | scraper/sources/itch.py:89-92 | the status is None exactly when the row has no value |
| Itch.ReadInfoPanel | scraper/sources/itch.py:77-115 | the row loop builds the panel row by row; `published` is kept as a list of values, as the code does |
| Gamejolt.LowerStripContains | scraper/sources/gamejolt.py:113-117 | the substring tests on the stripped, lower-cased text are tests on the lower-cased text |
| Gamejolt.HashWords | scraper/sources/gamejolt.py:201-202 | every hashtag word is non-empty and blank-free |
| Gamejolt.HashWordsSingle | scraper/sources/gamejolt.py:201-202 | one hashtag yields its word |
| Gamejolt.HashWordsSplit | scraper/sources/gamejolt.py:201-202 | matches never cross whitespace |
| Gamejolt.Tags | scraper/sources/gamejolt.py:200-202 | the tags are the hashtag words without repeats |
| Gamejolt.Genre | scraper/sources/gamejolt.py:203-206 | the genre loop keeps the first three tags |
| Gamejolt.Category | scraper/sources/gamejolt.py:207 | the category is the first tag, present exactly when a tag is |
| Gamejolt.CategoryIsFirstGenre | scraper/sources/gamejolt.py:203-207 | the category is the first genre; at most three genres, each the tag at its position |
| Gamejolt.NumeralAt | scraper/sources/gamejolt.py:120 | the greedy match of the number pattern at a digit |
| Gamejolt.FirstNumeral | scraper/sources/gamejolt.py:88 | no match exactly when there is no digit; a match is a numeral of the text |
| Gamejolt.Classify | scraper/sources/gamejolt.py:112-122 | a chosen text always gives a price |
| Gamejolt.ClassifySpec | scraper/sources/gamejolt.py:112-122 | "free" wins over "name", which wins over the first number; otherwise the stripped text |
| Gamejolt.ClassifyWithoutLetters | scraper/sources/gamejolt.py:114-122 | a text without letters kept as a label holds no number |
| Gamejolt.PriceText | scraper/sources/gamejolt.py:104-110 | the amount span wins over the amount text, which wins over the tag; none exactly when none is truthy |
| Gamejolt.ChoosePriceText | scraper/sources/gamejolt.py:104-110 | the step-by-step reassignment picks that text |
| Gamejolt.CardPriceNone | scraper/sources/gamejolt.py:77-122 | no price exactly when there is no pricing block, an old price without digits, or no usable text |
| Gamejolt.OldPriceWins | scraper/sources/gamejolt.py:81-90 | an old price hides every other text and is never a label |
| Gamejolt.IconPlatforms | scraper/sources/gamejolt.py:134-145 | an icon names a platform exactly when its class holds that platform's icon class |
| Gamejolt.PlatformsSpec | scraper/sources/gamejolt.py:130-145 | the platforms are the icons' platform names without repeats, in first-appearance order, present exactly when an icon carries the class |
| Gamejolt.ScrapeCards | scraper/sources/gamejolt.py:67-145 | one price entry per card and the platform list over all icons |
| Gamejolt.ReadCardPrice | scraper/sources/gamejolt.py:76-122 | one card's price as specified |
| Gamejolt.NoteCardIcons | scraper/sources/gamejolt.py:130-145 | the icon loop extends the platform list as specified |
| Gamejolt.NoteIconStep | scraper/sources/gamejolt.py:132-145 | the four membership-checked appends of one icon |
| Gamejolt.ScreenshotUrlSpec | scraper/sources/gamejolt.py:60-64 | a kept image keeps the screenshot marker and never stays protocol-relative |
| Gamejolt.Screenshots | scraper/sources/gamejolt.py:52-64 | at most one image per item, each with the marker and never protocol-relative |
| Gamejolt.ScreenshotsCount | scraper/sources/gamejolt.py:52-64 | every non-video item with a truthy, marked source adds exactly one image, and no other item adds one |
| Gamejolt.ScreenshotsComplete | scraper/sources/gamejolt.py:52-64 | the image of every such item is in the result |
| Gamejolt.CollectScreenshots | scraper/sources/gamejolt.py:52-64 | the media loop collects those images |
| Gamejolt.FixGameUrl | scraper/sources/gamejolt.py:285-286 | a fixed link ends with the original, never starts with `/`, and a `/`-rooted one gets the site base |
| Gamejolt.FixGameUrlIdempotent | scraper/sources/gamejolt.py:285-286 | fixing twice is fixing once |
| Gamejolt.ListedGames | scraper/sources/gamejolt.py:279-297 | each listed game has a non-empty link that never starts with `/` and a thumbnail; at most one per item |
| Gamejolt.ListedGamesCount | scraper/sources/gamejolt.py:279-297 | every item with a truthy link and thumbnail adds exactly one game, and no other item adds one |
| Gamejolt.ListedGamesComplete | scraper/sources/gamejolt.py:279-297 | the game of every such item, its link fixed, is in the result |
| Gamejolt.CollectGames | scraper/sources/gamejolt.py:279-297 | the item loop collects those games |
| Survey.Valid | app/engine/session.py:13-35 | each answer is absent or in its field's range: UEQ 1..7, friendly_vs_unfriendly -1..7, SUS 1..5, recommendation 0..10 |
| Survey.DefaultRecordValid | app/engine/session.py:13-35 | a record whose answers all take their default None passes the field constraints |
| Survey.ComputeSusScore | app/engine/session.py:232-254 | the score is 2.5 times the raw sum of the alternating contributions |
| Survey.SusRawClosedForm | app/engine/session.py:247-251 | the raw sum is the alternating sum shifted by -1 per odd-numbered and +5 per even-numbered item |
| Survey.SusRawTenItems | app/engine/session.py:247-251 | for ten items the raw sum is the alternating sum plus 20 |
| Survey.SusScoreRange | app/engine/session.py:232-254 | a valid complete record scores 0..40 raw and 0..100 scaled |
| Survey.ReduceColumns | app/engine/session.py:270-279 | the reduce loop leaves each column's sum in row 0 |
| Survey.ComputeAvgEqScores | app/engine/session.py:256-291 | each of the eight results is its column's average |
| Survey.ComputeAvgSusScores | app/engine/session.py:293-332 | each of the ten results is its column's average |
| Survey.EqAveragesInRange | app/engine/session.py:256-291 | over valid records the UEQ averages lie in 1..7, the last one in -1..7 |
| Survey.SusAveragesInRange | app/engine/session.py:293-332 | over valid records each SUS average lies in 1..5 |
| Survey.ComputeAvgLikelyToSuggest | app/engine/session.py:334-340 | the result is the mean recommendation |
| Survey.LikelyInRange | app/engine/session.py:334-340 | over valid records the mean lies in 0..10 |
| Survey.ComputeAvgSuccesses | app/engine/session.py:342-359 | each rate is the share of records counted as a success for that task, and lies in 0..1 |
| Survey.NoteSuccesses | app/engine/session.py:348-357 | one record adds one to each task it counts for |
| Survey.SuccessRateRange | app/engine/session.py:342-359 | every rate lies in 0..1 |
| Survey.SuccessesAreCompletions | app/engine/session.py:348-357 | for every task but elden ring the count is the number of completed flags |
| Survey.EldenRingCountsObservations | app/engine/session.py:354 | the elden ring count follows the observations text, not the completed flag |
| Survey.ComputeCompletionRates | app/engine/session.py:342-359 | each rate is the share of records whose completed flag is true |
| Survey.NoteCompletions | app/engine/session.py:348-357 | one record adds one to each task it completed |
| Survey.CompletionRateRange | app/engine/session.py:342-359 | every completion rate lies in 0..1 |
| Challenges.FindWantedTags | app/public/challenge.js:68-83 | the nested search succeeds exactly when each wanted tag equals some tag up to case |
| Challenges.RunMonotone | app/public/challenge.js:1-109 | along any run no flag is reset and the counter never goes down |
| Challenges.RunReachable | app/public/challenge.js:19-109 | every run keeps the flags ordered and the counter within 0..3 |
| Challenges.InOrderFromStart | app/public/challenge.js:1-109 | from the start the challenges complete only in order |
| Challenges.FlappyCompletes | app/public/challenge.js:2-7 | flappy completes exactly when the lower-cased query holds "flappy" and "bird" |
| Challenges.OrderEnforced | app/public/challenge.js:19-65 | a challenge does nothing before the one it follows is done |
| Challenges.CompletedIsNoOp | app/public/challenge.js:1-65 | checking a completed challenge does nothing |
| Challenges.EldenCompletes | app/public/challenge.js:64-86 | elden ring completes exactly when the query holds "elden" and "ring" and all three wanted tags are present |
| Challenges.CounterNeedsAll | app/public/challenge.js:99-109 | the counter moves only on a free search with all four flags set, by one |
| Challenges.FiresOnce | app/public/challenge.js:99-124 | a run completes the free search exactly when it takes the counter up to 3 from below |
| Challenges.FiresAtMostOnce | app/public/challenge.js:99-124 | from the start the free search completes at most once |
| Challenges.ThirdSearchFires | app/public/challenge.js:99-124 | after the four challenges, the third free search completes it |
| Challenges.Board.CheckFlappyBird | app/public/challenge.js:2-17 | the page state moves as the transition function says |
| Challenges.Board.CheckAlbionOnline | app/public/challenge.js:20-38 | the page state moves as the transition function says |
| Challenges.Board.CheckOrganizedTheft | app/public/challenge.js:41-61 | the page state moves as the transition function says |
| Challenges.Board.CheckEldenRing | app/public/challenge.js:64-96 | the page state moves as the transition function says |
| Challenges.Board.CheckFreeSearch | app/public/challenge.js:99-125 | the page state moves as the transition function says, and the call reports whether it completed the free search |

## Left out

- DuckDB storage is modelled as in-memory tables: SQL, sequences, file deletion and the id resolution of the postings insert are not modelled.
- Indexer.Indexer.PopulateTables keeps the posting rows inserted before the one that breaks the UNIQUE constraint, as auto-commit of each row would. Whether DuckDB's `executemany` rolls those rows back is not modelled.
- InvertedIndex.DocumentsForWord returns the posting rows in insertion order. The SQL join has no ORDER BY, so the database may return them in another order. That order decides which key enters the score dict first, and so the tie order of the top-K list and the entry that Bm25.QuerySourcesDocuments repeats. The model fixes one of the orders the database may choose.
- SHA-256 hashing, the Porter stemmer, the NLTK stopword list, `float()` and BM25's `idf` and `word_score` are function parameters. Float rounding is not modelled; scores and averages are exact reals.
- Character classes and case mapping are ASCII only. Python's and JavaScript's Unicode whitespace, digits and lower-casing are not modelled.
- Source.Lines treats `\r\n` as two breaks and keeps an empty last line after a trailing break, where `str.splitlines` does neither. The empty lines this adds carry no record, so the collected paths and sitemap are unaffected.
- JSON and pydantic loading and validation are not modelled (`read_collection_files`, `read_collection_by_name`, `read_collection`, `save_collection`, `collection/models/document.py`).
- Network, browser and selector work is not modelled: Playwright pages, parsel selectors, XML parsing, sleeps, `get_headers` and `get_proxy`. Each selector's result is an input of the model.
- The Game Jolt `routine` and the video lightbox clicking are not modelled. Its game-grid loop breaks at the first missing thumbnail, while the modelled `parse_game_page` loop skips such items.
- `scrape_documents` of every source and `scraper/sources/steam.py` are not modelled.
- Itch's title, author, description, video, screenshot, price and text extraction are not modelled; only the info panel is.
- Game Jolt's title, author, status, published, view and like extraction and its text assembly are not modelled; tags are derived from the assembled text as an input.
- The order of keys in Itch's `extra_data` is not modelled; it is a map.
- Itch.IsGamesPage reads `$` as the end of the URL. Python's `$` also matches before one trailing newline, and `\d` also matches non-ASCII digits; sitemap URLs carry neither.
- The survey's free-text answers and its session storage (`warm_db`, `store_user_feedback`, `get_all_feedbacks`) are not modelled.
- The page effects of the challenges (`setContainerCompleted`, labels, the feedback button) are not modelled.
- `filters.js`, `feedback.js`, `client.js`, `highlight.js`, `utils/logger.py` and `utils/env.py` are not modelled.
- Survey.ComputeSusScore, Survey.ComputeAvgEqScores, Survey.ComputeAvgSusScores, Survey.ComputeAvgLikelyToSuggest, Survey.ComputeAvgSuccesses and Survey.ComputeCompletionRates require the answers they add to be present and at least one record. In Python an absent answer raises TypeError and an empty list raises ZeroDivisionError; those error paths are not modelled.

## Findings

| source | as written | input that shows it | evidently intended | confidence | as-written member | corrected member |
|---|---|---|---|---|---|---|
| scraper/sources/itch.py:155 | the sitemap is fetched from `self.sitemap_url`, which nothing assigns; robots.txt stores it in `stiemap_url` | any robots.txt with a `Sitemap:` line: the lookup raises AttributeError, it is logged and no page is crawled | fetch the sitemap URL that robots.txt stored | high, not executed | Itch.SourceItch.ParseSitemapAsWritten, Itch.SitemapUrlNeverSet | Itch.SourceItch.ParseSitemap |
| app/engine/session.py:354 | the elden ring success count tests `task_elden_ring_observations` | one record with the task completed and no observations gives rate 0; one with the task failed and observations "slow" gives rate 1 | test `task_elden_ring_completed`, as the other four tasks do | medium, not executed | Survey.ComputeAvgSuccesses, Survey.EldenRingCountsObservations | Survey.ComputeCompletionRates, Survey.SuccessesAreCompletions |
