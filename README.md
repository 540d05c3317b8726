# movie-championship: a verified model of the tag and enrichment pipeline

movie-championship scrapes a Douban user's "watched" list. It enriches each
movie with fields from its Douban detail page and its IMDb page. It then
normalises every movie's tags into one Chinese vocabulary, separated by `/`,
and indexes the movies by tag for the front end. This project models the
deterministic part of that pipeline in Dafny and proves what it promises.
HTTP, HTML parsing, pandas and the file system are abstracted away. Pages
and responses are inputs: sequences of items, label spans and sibling nodes.
The poster directory is a set of file names. The movie table is a sequence
(or an array) of records with optional cells.

Modules, one per file:

- `Common` (common.dfy): `Option`, `Result`, and `Call`, an operation that
  returns a value or raises.
- `PyStr` (pystr.dfy): the Python `str` operations the scripts use, with
  Python's semantics. These are `strip` (with `str.isspace`), `split`,
  `join`, `find`/`rfind`, `split(c, 1)`, `replace`, ASCII `lower` and `\d+`
  runs.
- `Store` (store.dfy): the movie record.
- `TagTranslation` (tag_translation.dfy): `IMDB_TAG_TRANSLATION` and
  `translate_imdb_tag`.
- `TagMerge` (tag_merge.dfy): `merge_movie_tags` and the per-row tag merge of
  `merge_tags_to_movies_tags`. The row loop writes an array in place.
- `TagIndex` (tag_index.dfy): the tag → payload index, which is shared by the
  tag → ids mapping of `merge_tags_to_movies_tags` and by
  `get_tag_movies_mapping`.
- `ImdbTags` (imdb_tags.dfy): id normalisation and the chip filter of the two
  `get_imdb_tags` versions (scripts/imdb_handler.py and scripts/utils.py).
- `DoubanDetail` (douban_detail.dfy): the field rules of
  `get_douban_movie_detail`.
- `Poster` (poster.dfy): `poster_ext_from_content_type`,
  `poster_ext_from_url` and `download_poster`.
- `Crawler` (crawler.dfy): the pagination, retry, id cascade and incremental
  policy of `get_douban_movies`.
- `Enrichment` (enrichment.dfy): the record loop and the progress events of
  `update_from_imdb` in app.py.
- `DataHandler` (data_handler.dfy): `normalize_cookies`, `load_douban_config`,
  the server-sent-events frame of `stream_response_generator`, and
  `get_tag_movies_mapping`.

Each loop in the source is a Dafny method with loop invariants. Each method
is proved equal to a specification function. The lemmas beside that function
state what the source promises. Examples are no repeats with genres first,
the closed output vocabulary, idempotence, the first matching label deciding
a field, stop conditions and offsets of the crawl, cells an enrichment never
touches, and round trips through the cookie header and the event stream.

Some behaviours of the code worth stating plainly:

- app.py:167 skips a record when `genres`, `imdb_id`, `imdb_tags` and `tags`
  are all present; the other cells do not enter the decision.
- Language and runtime are overwritten by a truthy detail value, even when
  the record already has one (app.py:178-181).
- In `load_douban_config` the cookies are normalised before the `user_id`
  check. A malformed cookie list therefore raises even when `user_id` is
  missing (scripts/data_handler.py:76-79).

## Model

| member | source | states |
|---|---|---|
| TagTranslation.LookupWellFormed | scripts/merge_tags.py:50-176 | every dictionary value is a non-empty list of tags free of `,` and `/` |
| TagTranslation.TranslateTrimsFirst | scripts/merge_tags.py:180 | the tag is stripped before any rule: `Translate(raw) == Translate(strip(raw))` |
| TagTranslation.TranslateEmptyIff | scripts/merge_tags.py:183-202 | the result is `[]` exactly when the stripped tag is one of the 29 language names, or is neither a dictionary key nor contains a CJK character |
| TagTranslation.NoLanguageKey | scripts/merge_tags.py:50-188 | no key of the dictionary is one of the 29 language names, so the language rule never hides an entry |
| TagTranslation.LanguageNotCjk | scripts/merge_tags.py:183-188 | no language name contains a U+4E00..U+9FFF character (all 29 are ASCII) |
| TagTranslation.DictionaryHitVerbatim | scripts/merge_tags.py:190-195 | every dictionary hit returns the mapped list verbatim, non-empty |
| TagTranslation.CjkPassThrough | scripts/merge_tags.py:190-199 | every non-dictionary tag containing a U+4E00..U+9FFF character is returned as the singleton of the stripped tag |
| TagTranslation.TranslateClosed | scripts/merge_tags.py:183-202 | every result is `[]`, a dictionary value, or `[stripped tag]` holding a CJK character; separator-free input gives separator-free output |
| TagTranslation.TranslateDecomposes | test_imports.py:24-26 | `'Action Epic'` (with any surrounding whitespace) translates to `['动作', '史诗']` in that order |
| TagTranslation.LookupActionEpic | scripts/merge_tags.py:79 | the dictionary maps `'Action Epic'` to `['动作', '史诗']` |
| TagMerge.Dedup | scripts/imdb_handler.py:109-122 | the first occurrence of each non-empty tag, in order: no repeat, no empty tag, and exactly the non-empty input tags |
| TagMerge.Unseen | scripts/imdb_handler.py:119-122 | the tags of one list that do not occur in another, in order |
| TagMerge.DedupConcat | scripts/imdb_handler.py:112-122 | merging a concatenation keeps the first list's survivors in front, followed by the second list's new tags, so genres come first |
| TagMerge.DedupOfDistinct | scripts/merge_tags.py:261-266 | a list with no empty tag and no repeat is its own de-duplication |
| TagMerge.DedupIdempotent | scripts/merge_tags.py:261-266 | de-duplicating twice is de-duplicating once |
| TagMerge.DedupIgnoresEmpty | scripts/imdb_handler.py:113-122 | an empty tag inserted anywhere in the input leaves the merge unchanged |
| TagMerge.AppendUnseen | scripts/imdb_handler.py:113-122 | the `if tag and tag not in seen` loop extends the merged list to the de-duplication of everything seen so far, and `seen` to its elements |
| TagMerge.MergeMovieTags | scripts/imdb_handler.py:96-125 | `merge_movie_tags` returns the `/`-join of the de-duplicated genres followed by the IMDb tags (`""` when both are empty) |
| TagMerge.MergeExample | test_imports.py:42 | `merge_movie_tags(['动作','冒险'], ['科幻','动作'])` is `'动作/冒险/科幻'` |
| TagMerge.MergeExampleDedup | scripts/imdb_handler.py:100-103 | `(['动作','冒险'], ['科幻','动作'])` merges to `['动作','冒险','科幻']` |
| TagMerge.MergeExampleJoin | scripts/imdb_handler.py:125 | that merge is written `'动作/冒险/科幻'` |
| TagMerge.TranslateAllFrom | scripts/merge_tags.py:255-258 | every translated tag comes from translating one input tag |
| TagMerge.TranslateAllUnseparated | scripts/merge_tags.py:255-258 | translating separator-free tags gives separator-free tags |
| TagMerge.RowTagListShape | scripts/merge_tags.py:237-266 | a row's tag list has no repeat, starts with the genre pieces in order (de-duplicated), and holds every translated IMDb tag |
| TagMerge.RowTagsSplit | scripts/merge_tags.py:269 | when neither cell contains `/`, splitting the written `tags` cell on `/` gives the row's tag list back |
| TagMerge.TranslateTags | scripts/merge_tags.py:255-258 | the translation loop returns the concatenated translations, in order |
| TagMerge.MergeRowTags | scripts/merge_tags.py:237-269 | one row's `tags` cell is the `/`-join of its merged tag list (`''` when empty) |
| TagMerge.WithTagsIdempotent | scripts/merge_tags.py:230-269 | the value is recomputed from `genres` and `imdb_tags` only, so merging a merged row changes nothing |
| TagMerge.MergedRows | scripts/merge_tags.py:232-269 | the merged table has the same length, and each row is the input row with its `tags` recomputed |
| TagMerge.MergeRow | scripts/merge_tags.py:269 | one row written: the input with `tags` set to the row merge |
| TagMerge.MergeAllRowsWith | scripts/merge_tags.py:232-269 | the row loop rewrites the array in place to the merged table |
| TagMerge.MergeAllRows | scripts/merge_tags.py:230-269 | the same loop with `translate_imdb_tag` |
| TagIndex.Count | scripts/merge_tags.py:289-294 | how often a tag occurs: at most the length, and positive exactly when the tag occurs |
| TagIndex.CountDistinct | scripts/merge_tags.py:289-294 | in a list without repeats, a tag occurs at most once |
| TagIndex.PostingsMember | scripts/merge_tags.py:289-294 | something is filed under a tag exactly when it is the payload of an entry carrying that tag |
| TagIndex.PostingsEmpty | scripts/merge_tags.py:292-293 | a tag has a list exactly when some entry carries it |
| TagIndex.PostingsOfDistinct | scripts/merge_tags.py:280-294 | when no entry repeats a tag, the list under a tag is the payloads of the carrying entries, in entry order |
| TagIndex.FiledGet | scripts/merge_tags.py:289-294 | filing one row appends its payload under each tag once per occurrence and changes no other tag |
| TagIndex.FiledKeys | scripts/merge_tags.py:292-294 | filing never creates an empty list |
| TagIndex.IndexedIndexOf | scripts/merge_tags.py:280-294 | the index built row by row files exactly the postings under each tag and has no empty list |
| TagIndex.IndexKeys | scripts/merge_tags.py:292-293 | the keys of the index are exactly the tags some entry carries |
| TagIndex.AddPostings | scripts/merge_tags.py:288-294 | the inner loop files the payload under each stripped non-blank `/`-segment |
| TagIndex.TagIdIndex | scripts/merge_tags.py:280-294 | the tag → ids mapping is the index of the rows that have an id, filed by id; it follows the corrected NaN guard of the first finding, not the code as written |
| TagIndex.IdEntriesFromIds | scripts/merge_tags.py:282-284 | only rows with a present, non-empty id are filed, under that id |
| TagIndex.NanIdFiled | scripts/merge_tags.py:282-283 | as written, a row with a NaN id is filed as the movie `"nan"`; the guarded version files nothing |
| TagIndex.MergedTags | scripts/merge_tags.py:269-291 | for `/`-free genre and IMDb-tags cells, a merged `tags` cell reads back, segment by segment, as the row's tag list |
| TagIndex.IdEntriesDistinct | scripts/merge_tags.py:280-294 | entries inherit the no-repeat property of the rows' `tags` cells |
| TagIndex.MergedRowDistinct | scripts/merge_tags.py:261-269 | for `/`-free genre and IMDb-tags cells, a merged row's `tags` cell lists each tag once |
| TagIndex.MergedEntriesDistinct | scripts/merge_tags.py:230-294 | for rows with `/`-free genre and IMDb-tags cells, every entry filed from the merged table lists each tag once |
| TagIndex.MergedIdIndex | scripts/merge_tags.py:280-294 | for rows with `/`-free genre and IMDb-tags cells, each tag of the merged table lists the ids of the rows carrying it, once each, in row order |
| ImdbTags.NormalizeIdSpec | scripts/imdb_handler.py:42-44 | a normalised id starts with `tt`, ends with the stripped input, and normalising again changes nothing |
| ImdbTags.Without | scripts/imdb_handler.py:84-87 | the tags outside a set, in order: exactly the members not excluded |
| ImdbTags.DedupWithout | scripts/utils.py:90-100 | de-duplicating and filtering commute, so the two versions' orders of dedup and filter agree |
| ImdbTags.WithoutWithout | scripts/imdb_handler.py:84-87 | filtering twice drops the union of what each filter drops |
| ImdbTags.CommaJoinedEmpty | scripts/imdb_handler.py:89 | a `', '`-join of non-empty tags is `""` exactly when there are none |
| ImdbTags.HandlerTagsSpec | scripts/imdb_handler.py:72-87 | the kept chips have no repeat and are exactly the non-empty chip texts other than `Drama` and the 10 languages |
| ImdbTags.HandlerResultEmpty | scripts/imdb_handler.py:38-93 | the result is `""` exactly when the id is missing, the request raises, the status is not 200, or no chip survives |
| ImdbTags.CollectChips | scripts/imdb_handler.py:73-77 | the chip loop keeps each stripped, non-empty text at its first occurrence |
| ImdbTags.DropExcluded | scripts/imdb_handler.py:80-87 | the filter loop drops the language names and `Drama`, keeping order |
| ImdbTags.KeepUnlessExcluded | scripts/imdb_handler.py:85-87 | one turn of the filter loop extends the filtered list by the tag unless it is excluded |
| ImdbTags.HandlerGetImdbTags | scripts/imdb_handler.py:30-93 | `get_imdb_tags` returns the handler result for the id and response |
| ImdbTags.UtilsTagsSpec | scripts/utils.py:82-100 | the kept chips have no repeat and are exactly the non-empty chip texts other than `Drama` and the 29 languages |
| ImdbTags.UtilsRefinesHandler | scripts/utils.py:82-97 | the utils version keeps what the handler version keeps, minus the 29 languages |
| ImdbTags.HandlerLanguagesListed | scripts/imdb_handler.py:81-82 | the 10 handler languages are among the 29 |
| ImdbTags.UtilsResultNonEmpty | scripts/utils.py:43-111 | a result is a non-empty join, and it exists exactly for an id, a 200 page and some surviving chip |
| ImdbTags.UtilsChipStep | scripts/utils.py:90-97 | one more chip extends the kept list by its text exactly when the text is non-empty, not `Drama`, not a language and not already kept |
| ImdbTags.CollectUtilsChips | scripts/utils.py:90-100 | the chip loop returns the de-duplicated, filtered chip texts |
| ImdbTags.UtilsGetImdbTags | scripts/utils.py:41-111 | `get_imdb_tags` returns the utils result for the id and response |
| DoubanDetail.FirstLabel | scripts/douban_detail.py:74-76 | the index of the first label named `name` or `name:`; no earlier label matches; none when no label matches |
| DoubanDetail.LaterLabelsIgnored | scripts/douban_detail.py:86 | labels after the first match are never looked at |
| DoubanDetail.FindLabel | scripts/douban_detail.py:74-86 | the `for span ...: break` scan returns the first matching label |
| DoubanDetail.SearchTtSpec | scripts/douban_detail.py:83-85 | a match is `tt` followed by digits and occurs in the text; there is none exactly when `tt<digit>` occurs nowhere |
| DoubanDetail.SearchTtFirst | scripts/douban_detail.py:83-85 | the match starts at the first `tt<digit>` and takes every digit after it |
| DoubanDetail.ExtractedIdNormal | scripts/douban_detail.py:85 | an extracted id already has the `tt` prefix `get_imdb_tags` would add |
| DoubanDetail.GenreListSpec | scripts/douban_detail.py:89-93 | the genres are exactly the stripped non-empty span texts other than `剧情`, in page order |
| DoubanDetail.GenreListIdempotent | scripts/douban_detail.py:89-93 | extracting again from the extracted genres changes nothing |
| DoubanDetail.CollectGenres | scripts/douban_detail.py:89-93 | the genre loop returns the genre list |
| DoubanDetail.FirstLanguage | scripts/douban_detail.py:112 | the language taken from a text node holds no `/` and no `、` and is stripped |
| DoubanDetail.LanguageAsWrittenFromLink | scripts/douban_detail.py:100-115 | as written, a language is always the text of an `<a>` sibling |
| DoubanDetail.LanguageShape | scripts/douban_detail.py:100-115 | as intended, a language is a link's text, or the first piece of a non-blank text node other than `/` or `、` |
| DoubanDetail.LanguageStopsAtBreak | scripts/douban_detail.py:106-107 | nothing after the first `<br>` is looked at |
| DoubanDetail.LanguageAgreesOnElements | scripts/douban_detail.py:102-107 | among element siblings only, the written and the intended walk agree |
| DoubanDetail.PlainTextLanguageLost | scripts/douban_detail.py:102-113 | `语言: 英语<br>` yields no language as written and `英语` as intended |
| DoubanDetail.WalkLanguage | scripts/douban_detail.py:100-115 | the `while current:` walk returns the intended language |
| DoubanDetail.SearchMinutesNone | scripts/douban_detail.py:127-129 | there is no runtime exactly when no digit run is followed by optional whitespace and `分钟` |
| DoubanDetail.SearchMinutesFirst | scripts/douban_detail.py:127-129 | the leftmost match decides, and its digit run is the value |
| DoubanDetail.MinutesOfText | scripts/douban_detail.py:127-129 | `<digits><spaces>分钟...` yields exactly those digits' value |
| DoubanDetail.DetailErrors | scripts/douban_detail.py:46-140 | an empty URL, a raised request, a non-200 status or a page without `div#info` yields all four fields `None` |
| DoubanDetail.FieldsIndependent | scripts/douban_detail.py:68-134 | each field is read on its own: genres from the genre spans, and id, language and runtime from their first labels |
| DoubanDetail.GetDetail | scripts/douban_detail.py:36-140 | the extractor returns the detail the field rules define, with the language read by the corrected walk of the second finding, not the code as written |
| Poster.ExtFromContentTypeSpec | scripts/douban_crawler.py:56-66 | a result is one of the three extensions, and the header names an extension exactly when its media type is that extension's |
| Poster.ContentTypeParameters | scripts/douban_crawler.py:59 | parameters after the first `;` are ignored |
| Poster.MimeTypeRoundTrip | scripts/douban_crawler.py:60-65 | each media type maps back to its extension |
| Poster.ExtFromUrl | scripts/douban_crawler.py:69-77 | the URL extension is always `.jpg`, `.png` or `.webp` |
| Poster.UrlQueryIgnored | scripts/douban_crawler.py:72 | the query string does not matter |
| Poster.SplitExtOfFile | scripts/douban_crawler.py:73 | `splitext` of a name ending in `.xyz` gives `.xyz` |
| Poster.ExtFromUrlBySuffix | scripts/douban_crawler.py:72-77 | a file URL is judged by its extension alone |
| Poster.ExtFromUrlOfFile | scripts/douban_crawler.py:75-76 | a known image extension is kept, with `.jpeg` becoming `.jpg` |
| Poster.Cached | scripts/douban_crawler.py:85-88 | the cached file found is `{id}{ext}` in the directory for one of the extensions; there is none exactly when none exists |
| Poster.CandidatesOfWebp | scripts/douban_crawler.py:90-92 | a `.webp` URL is tried as the `.jpg` sibling first, then as itself |
| Poster.TryCandidatesFirstUsable | scripts/douban_crawler.py:98-109 | the first usable candidate wins, and it and every earlier candidate were requested |
| Poster.TryCandidatesNone | scripts/douban_crawler.py:98-114 | with no usable candidate, all are requested, nothing is written and there is no path |
| Poster.DownloadSpec | scripts/douban_crawler.py:80-114 | the directory only gains the returned file, which is `{id}` with one of the four extensions |
| Poster.DownloadWithoutRequest | scripts/douban_crawler.py:81-88 | with no URL or no id, or with a cached file, no request is made and nothing is written |
| Poster.ProbeCache | scripts/douban_crawler.py:85-88 | the extension loop returns the first cached file |
| Poster.TryEach | scripts/douban_crawler.py:98-114 | the candidate loop returns the outcome of trying the candidates in order |
| Poster.DownloadTwice | scripts/douban_crawler.py:80-109 | once a poster is stored, a second call for the same id requests nothing, writes nothing and returns the same path |
| Poster.DownloadPoster | scripts/douban_crawler.py:80-114 | `download_poster` returns the download outcome |
| Crawler.SubjectIdShape | scripts/douban_crawler.py:215-219 | a subject id is a non-empty digit string found between `/subject/` and `/` |
| Crawler.SubjectIdNone | scripts/douban_crawler.py:215-219 | there is no subject id exactly when `/subject/<digits>/` occurs nowhere |
| Crawler.SubjectIdOfPath | scripts/douban_crawler.py:217-219 | a link `/subject/<digits>/...` gives exactly those digits |
| Crawler.FirstLinkId | scripts/douban_crawler.py:215-219 | the id from the first link that has one, digits only; none exactly when no link has one |
| Crawler.ItemIdSpec | scripts/douban_crawler.py:209-223 | an id is never empty, and it is absent exactly when the item attribute, the nested attribute and every link lack one |
| Crawler.PageMoviesSpec | scripts/douban_crawler.py:200-229 | every record has a non-empty id that is new unless the crawl is full; a page yields something exactly when one of its items is wanted |
| Crawler.ProcessItems | scripts/douban_crawler.py:198-296 | the item loop appends the page's records, counts them, and sets `page_found_new` exactly when there is one |
| Crawler.FetchPage | scripts/douban_crawler.py:143-160 | at most 3 attempts; transport errors are retried, and a non-200 status fails at once |
| Crawler.PageStep | scripts/douban_crawler.py:140-328 | only a page inside the site lets the crawl go on |
| Crawler.StopShape | scripts/douban_crawler.py:174-326 | a stopping page requests only its own offset, and a successful stop adds no records |
| Crawler.CrawlOffsets | scripts/douban_crawler.py:134-327 | offsets start at `15 * k` and grow by 15 per page |
| Crawler.CrawlOnlyNew | scripts/douban_crawler.py:222-227 | an incremental crawl returns only records with new, non-empty ids |
| Crawler.StoppedOnStopPage | scripts/douban_crawler.py:174-326 | a successful stop happens on an empty page or, incrementally, on a page with nothing wanted; never on an empty first page |
| Crawler.CrawlEndsOnStopPage | scripts/douban_crawler.py:140-328 | a successful crawl ends on a stop page, and its first page was not empty |
| Crawler.StopPageStops | scripts/douban_crawler.py:174-326 | a stop page ends the crawl there: an empty page breaks the loop (raising on the first page), and in an incremental crawl a page with no new item breaks it (raising on the first page in debug mode) |
| Crawler.NothingNewFirstPage | scripts/douban_crawler.py:140-330 | an incremental crawl whose non-empty first page lists only known movies makes one request and returns no records |
| Crawler.FullCrawlContinues | scripts/douban_crawler.py:303-327 | a full crawl goes on past every fetched non-empty page, known ids included, except the debug check on the first page; the page yields records exactly when an item has an id |
| Crawler.CrawlPage | scripts/douban_crawler.py:141-328 | one pass of the loop body is the page step |
| Crawler.GetDoubanMovies | scripts/douban_crawler.py:118-330 | the `while True` loop returns the crawl, with `new_count == len(movies)` |
| Enrichment.CompleteSkipped | app.py:162-169 | a record is skipped exactly when its four cells are present, and a skipped record is unchanged |
| Enrichment.FailedUnchanged | app.py:173-214 | a record fails exactly when its detail fetch is made and raises; it is then left unchanged and not counted |
| Enrichment.DetailPhaseKeeps | app.py:173-184 | the detail phase touches only genres, language, runtime and IMDb id, and keeps present genres and ids |
| Enrichment.PresentCellsKept | app.py:142-214 | a record's pass keeps the listing cells and every present genres, IMDb id, IMDb tags and tags cell |
| Enrichment.TagPhaseKeeps | app.py:186-191 | the tag phase writes only the IMDb tags cell, and only when that cell is absent |
| Enrichment.MergePhaseKeeps | app.py:193-209 | the merge phase writes only the tags cell, and never a present one |
| Enrichment.LanguageOverwritten | app.py:178-181 | a truthy fetched language or runtime overwrites the cell; a falsy language leaves it |
| Enrichment.DetailNotConsulted | app.py:173 | the detail page matters only when genres or IMDb id is missing and the link is truthy |
| Enrichment.TagsNotFetched | app.py:186 | the IMDb page matters only when the IMDb tags are missing |
| Enrichment.TranslateAllCommaFree | app.py:200-204 | translating comma-free tags gives comma-free tags |
| Enrichment.GenresListCommaFree | app.py:206 | no genre piece holds a comma |
| Enrichment.MergedTagsWritten | app.py:207-209 | the merged text has no comma, so the `', '`→`/` replacement leaves it as it is |
| Enrichment.MergeWritesOwnText | app.py:193-209 | a tags cell the merge phase writes is the non-empty merge of the record it ends in |
| Enrichment.TagsFromFinalCells | app.py:161-209 | a tags cell the record's pass writes was absent and is the merge of the record's final genres and IMDb tags |
| Enrichment.GenresCellPresent | app.py:175-177 | a genres cell written from a list with a non-blank first genre counts as present |
| Enrichment.GenresRoundTrip | app.py:176-206 | a genre list written with `', '` reads back as the same list |
| Enrichment.GenresJoinedTwice | app.py:176 | as written, the joined genre text `动作` is stored as `动, 作` and read back as two genres |
| Enrichment.EnrichAll | app.py:152-214 | one outcome per record |
| Enrichment.EnrichAllPointwise | app.py:152-214 | each outcome is the record pass on that record alone |
| Enrichment.PercentageBound | app.py:156 | the percentage never passes 100 |
| Enrichment.TicksShape | app.py:155-159 | progress events report the first and every fifth record, in order, with totals and percentages |
| Enrichment.UpdatedAtMost | app.py:211 | at most every record is counted, and all are exactly when every record was updated |
| Enrichment.ApplyDetail | app.py:174-184 | the detail phase as run |
| Enrichment.FetchTags | app.py:186-191 | the tag phase as run |
| Enrichment.MergeTags | app.py:193-209 | the merge phase as run: translate, merge, replace |
| Enrichment.EnrichRecord | app.py:153-214 | one record as run |
| Enrichment.EnrichTable | app.py:146-214 | the loop rewrites the table in place record by record, counts the updated ones, and emits the opening and progress events |
| Enrichment.UpdateFromImdbWith | app.py:131-221 | a missing file or `id`/`title` column gives one failure event and no change; otherwise the loop runs and a summary with the updated count closes the events |
| Enrichment.UpdateFromImdb | app.py:127-221 | the same with `translate_imdb_tag` |
| DataHandler.DictCookies | scripts/data_handler.py:40-41 | a dict of cookies is the jar itself: same names, same values |
| DataHandler.ListCookiesRaised | scripts/data_handler.py:42-50 | a list raises exactly when some named item has an unhashable name |
| DataHandler.ListCookiesKeys | scripts/data_handler.py:44-49 | the jar holds exactly the names of the dict items with a truthy name and a non-`None` value |
| DataHandler.ListCookiesLastWins | scripts/data_handler.py:49 | under each name the jar keeps the value of the last item with that name |
| DataHandler.CookieHeaderRoundTrip | scripts/data_handler.py:51-58 | parsing a `k1=v1; k2=v2` header gives the jar of its pairs, the last pair winning |
| DataHandler.PairTextParts | scripts/data_handler.py:53-57 | a `k=v` part of safe text survives stripping and splits back into its name and value |
| DataHandler.PartsOfPairs | scripts/data_handler.py:53 | parsing the `k=v` texts of safe pairs part by part gives the jar of the pairs |
| DataHandler.CookiesFromList | scripts/data_handler.py:42-50 | the list branch, item by item, gives the list jar or raises |
| DataHandler.CookiesFromString | scripts/data_handler.py:51-58 | the string branch, part by part, gives the string jar |
| DataHandler.NormalizeCookies | scripts/data_handler.py:39-59 | `normalize_cookies` gives the jar of the setting's type, and `{}` for any other type |
| DataHandler.ConfigLoads | scripts/data_handler.py:62-81 | a configuration loads exactly when the file is an object whose cookies normalise and whose `user_id` is truthy; it returns those two |
| DataHandler.NoCookiesEmpty | scripts/data_handler.py:77 | without a `cookies` entry the jar is empty |
| DataHandler.UserIdRequired | scripts/data_handler.py:76-79 | a missing or falsy `user_id` is refused, unless the cookies already raised |
| DataHandler.StreamLines | scripts/data_handler.py:214 | a stream of frames is its `data:` lines, each followed by a blank line, joined with LF |
| DataHandler.FieldOfFrame | scripts/data_handler.py:214 | the `data:` line of a frame carries the field `data` with the message as value |
| DataHandler.DispatchFrames | scripts/data_handler.py:214 | a client dispatches one event per frame, carrying its message |
| DataHandler.StreamRoundTrip | scripts/data_handler.py:214 | a client receives the messages of a stream of frames, in order, when no message holds a line break |
| DataHandler.FrameRoundTrip | scripts/data_handler.py:214 | one frame carries exactly its message |
| DataHandler.SummaryEntries | scripts/data_handler.py:178-194 | one entry per row: the row's tags and its movie dictionary |
| DataHandler.TagMoviesMapping | scripts/data_handler.py:163-202 | the mapping is the index of the rows' movie dictionaries by their tags |
| DataHandler.MappingMembers | scripts/data_handler.py:196-200 | a movie is listed under a tag exactly when one of its rows carries the tag |
| DataHandler.MappingKeys | scripts/data_handler.py:181-200 | the mapping's tags are exactly the tags some row carries, each non-empty, stripped and free of `/` |
| DataHandler.MappingInRowOrder | scripts/data_handler.py:178-200 | when no row repeats a tag, each tag lists its movies once each, in row order |
| PyStr.TrimSpec | scripts/merge_tags.py:180 | `strip()` leaves no whitespace at either end, keeps only characters of the input, and gives `""` exactly for an all-whitespace string |
| PyStr.TrimIdempotent | scripts/merge_tags.py:180 | `strip()` is idempotent |
| PyStr.Split | scripts/merge_tags.py:288 | `split(c)` gives at least one piece, and no piece holds `c` |
| PyStr.JoinSplit | scripts/merge_tags.py:269-288 | joining the pieces of a split with the same separator gives the string back |
| PyStr.SplitJoin | scripts/merge_tags.py:269-288 | splitting a join of separator-free parts gives the parts back |
| PyStr.KeepTrimmed | scripts/merge_tags.py:245-253 | `[p.strip() for p in ps if p.strip()]` holds only non-blank stripped pieces |
| PyStr.Pieces | scripts/data_handler.py:53 | the stripped non-blank pieces of a split, none holding the separator |
| PyStr.Before | scripts/douban_crawler.py:59-72 | `split(c, 1)[0]` is a prefix free of `c` |
| PyStr.BeforeFirst | scripts/douban_crawler.py:59-72 | the cut is at the first `c` |
| PyStr.IndexOf | scripts/data_handler.py:56 | the index of the first `c`, or the length of `s` when there is none: where `split(c, 1)` cuts |
| PyStr.LastIndexOf | scripts/douban_crawler.py:73 | `rfind(c)` is the last index of `c`, or -1 |
| PyStr.DigitRun | scripts/douban_detail.py:83-127 | a greedy `\d+` run: all digits, a prefix, and followed by no digit |

## Left out

- HTTP: every `requests.get`, its headers, timeouts and encodings. Responses are inputs (`Call` of a status, a body flag, a content type, chip texts, list items, label spans).
- HTML: BeautifulSoup selectors. Label spans, sibling nodes, chip spans and listing items are small datatypes, and `get_text(strip=True)` is `strip()` of the node's text.
- pandas and files: reading and writing Excel and CSV, `load_watched_movies` and `load_tags_movies` with their CSV fallbacks, `convert_dataframe_to_dict_list`, and the JSON dump of the tag mapping. The table is a sequence or array of records with optional cells. A NaN cell is `None`.
- `merge_tags_to_common` (scripts/merge_tags.py:325-395): the same row merge, joined with `', '` and written to an older file. It is not part of this model.
- The web layer: Flask routes, CORS, `safe_print`, `update_from_douban` and `get_poster`.
- `time.sleep`, `progress_cb` and `print`: they have no effect on the results.
- Floating point: in the table the rating is kept as the cell's text, and JSON numbers are integers. The crawler's rating is the float its item parser produces, passed through as an opaque `real`; the parse itself is not modelled.
- Enrichment.Percentage: is `processed * 100 / total` in integers. Python's `int(processed / total * 100)` can be one lower (`int(29 / 100 * 100) == 28`).
- Poster downloads made during a crawl: errors are swallowed, and the records do not depend on them.
- An item that raises while it is parsed (`except Exception: continue`): the item parser is not modelled.
- The debug details attached to a crawl error. Only which error it is is modelled.
- The titles of streamed events and the text of messages. The events are values (`Progress`, `Finished`, `Failure`), and their Python `repr` inside the frame is not modelled.
- DataHandler.Received: splits lines on LF only. CR and CRLF terminators and a missing final blank line are not modelled, and messages holding a line break break the framing.
- DataHandler.CookiesFromList: a list item named `True` and one named `1` set the same key of a Python dict (`KeyOf` maps both to the number 1). Which of the two key objects the dict keeps is not modelled; the value is.
- TagIndex.MergedTags: takes as a hypothesis that the translations of a row's IMDb tags are non-blank and stripped. That holds of the dictionary values, but proving it for every literal is beyond the solver budget. It also requires `/`-free genre and IMDb-tags cells: a CJK tag such as `动作/冒险` passes through translation whole and is split into two tags when the cell is read back, so the read-back promise does not hold for such cells.
- TagIndex.MergedRowDistinct: rests on the same two conditions as TagIndex.MergedTags (non-blank, stripped translations taken as a hypothesis; `/`-free cells required).
- TagIndex.MergedEntriesDistinct: rests on the same two conditions as TagIndex.MergedTags, for every row.
- TagIndex.MergedIdIndex: rests on the same two conditions as TagIndex.MergedTags, for every row.
- TagIndex.TagIdIndex: files only rows with a present id, as the `pd.isna` guard intends. The code as written also files NaN ids under `"nan"` (TagIndex.IdEntriesAsWritten, the first finding), and the method does not model that.
- DoubanDetail.GetDetail: reads the language with the corrected walk `Language`. The code as written (`LanguageAsWritten`, the second finding) returns no language when it is plain text, and the method does not model that.
- Unicode: `lower()` and `\d` are ASCII only; `isspace()` follows Python's table.
- app.py:20 imports `get_douban_movie_detail` from `douban_crawler`, which does not define it (it lives in scripts/douban_detail.py). The detail fetch is a parameter returning `Call` of a detail, with genres as a list as app.py:176 expects. Finding 3 covers what happens with the string scripts/douban_detail.py returns.
- The language sibling walk: the model keeps the node kind explicit. Which branch a given BeautifulSoup version reaches is Finding 2.
- Crawler: the site is a finite sequence of page fetches, and every page past its end is an empty page. A site that never runs out of new items is not modelled.

## Findings

| source | as written | input that shows it | evidently intended | confidence | as-written member | corrected member |
|---|---|---|---|---|---|---|
| scripts/merge_tags.py:282-283 | `str(row.get('id', ''))` turns a NaN id into `"nan"` before `pd.isna` is asked, so the guard never fires | a row with a NaN id and `tags == '动作'` | rows without an id are skipped | high (not executed) | TagIndex.NanIdFiled | TagIndex.IdEntriesFromIds |
| scripts/douban_detail.py:102-113 | `hasattr(current, 'name')` is true of BeautifulSoup text nodes too (their `name` is `None`), so the text branch is never reached | siblings `" 英语"`, `<br>` | a plain-text language is read | medium (not executed) | DoubanDetail.PlainTextLanguageLost | DoubanDetail.WalkLanguage |
| app.py:176 | `', '.join(genres)` runs over the genre text scripts/douban_detail.py returns, which is already joined | detail genres `"动作"` | the genre text is stored as it is | high (not executed) | Enrichment.GenresJoinedTwice | Enrichment.GenresRoundTrip |
