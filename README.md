# greener core, modelled in Dafny

This project models the core of the Go web toolkit greener and proves
properties of the model:

- the group-commit write batcher of `db.go`: one goroutine that receives
  write requests and timer ticks, keeps one open transaction for a batch,
  and commits or rolls the batch back. It also covers the pool sizing,
  the pragma table and the connection URL;
- the sticky-error transaction wrapper of `tx.go` and the row and rows
  wrappers that share it;
- the key-value store of `kv.go`: JSON validation, upsert and create,
  lookup with whole-second expiry, delete, cleanup and paginated
  iteration;
- the full-text store helpers of `fts.go`: facet ordering and sorting,
  facet counting, and update-else-insert `Put`;
- the compressed-content handlers of `content.go`;
- `trimBearer` of `actor.go`;
- the site navigation of `nav.go`, `navsitemap.go` and `navtransformer.go`:
  - page and section registration;
  - breadcrumbs and the section navigation list;
  - indentation;
  - the section tree built from a Markdown sitemap;
  - the rewriting of Markdown links.

The modules are laid out as follows:

- Go's standard-library helpers are modules of their own:
  - `Strs` holds `strings` and `strconv`;
  - `Paths` holds `path/filepath`'s `Clean`, `Dir` and `Join`;
  - `Sorting` holds a stable sort used as the reference for `sort.SliceStable`;
  - `Common` holds `Option`, `Result`, `Outcome` and the error values.
- Channels and goroutines become explicit event sequences. `Batcher.Next` is
  one turn of the `for { select }` loop, and `Batcher.BatchProcessor.Step`
  is the imperative version proved against it.
- The SQLite tables become maps and sequences. `time.Now()` is a `now`
  parameter. The code compares it with the `expires` column as
  `time.Now().Unix()`, so `now` is in whole Unix seconds in `KV.Live`,
  `KV.Expired`, `KV.Lookup`, `KV.Cleaned`, `KV.Select`, `KV.SelectFixed`
  and `KV.PutThenGet`. Only the `expires` time given to Put and Create is
  in nanoseconds. What the database answers to a statement is an
  `Outcome` parameter.
- The graph of `*Page` and `*Section` values in the navigation code is an arena:
  - pages and sections are indices into two sequences, and every child
    index is larger than its parent's;
  - the fields the code assigns (`pageMap`, `Page.Section`,
    `Section.parent`) are map fields of `Site.SiteTree`.
- `filepath.Rel` is passed in as a function `rel`. Its result is not
  computed.
- A Markdown document is reduced to what the code reads from it:
  - for the sitemap, the sequence of headings and link list items;
  - for link rewriting, the array of link destinations.

## Model

| member | source | states |
|---|---|---|
| Batcher.Next | db.go:94-131 | one turn of the processor's loop: a request or a tick |
| Batcher.BeginFailureAnswersOnlyTheCaller | db.go:97-103 | with nothing pending, a failed Begin answers only that caller with the Begin error, leaves nothing pending and no transaction |
| Batcher.SuccessJoinsTheBatch | db.go:104-105 | a successful function joins the pending list behind the earlier requests, gets no reply, and the transaction stays live |
| Batcher.FailureAbortsTheBatch | db.go:106-117 | a failing function rolls back exactly once; it gets its own error first, then every earlier pending request gets "Transaction aborted" in arrival order; nothing stays pending |
| Batcher.TickCommitsTheBatch | db.go:120-129 | a tick with requests pending commits once and sends the same commit result to each of them in order, then clears the transaction; with nothing pending it changes nothing |
| Batcher.NextInv | db.go:89-132 | every event keeps the invariant: pending requests imply a live transaction; begins = commits + rollbacks + live; every arrived request is answered or pending |
| Batcher.RunInv | db.go:89-132 | the invariant holds after any sequence of events |
| Batcher.RunExtendsLog | db.go:101-127 | replies are only appended, never withdrawn or changed |
| Batcher.AnsweredExactlyOnce | db.go:101-127 | with distinct ids, every arrived request is answered exactly once or still pending; nothing else is answered |
| Batcher.PendingFate | db.go:113-127 | a pending request receives the result of the next tick, or "Transaction aborted" from an earlier failing request |
| Batcher.WriteReceivesItsReply | db.go:155-164 | Write receives exactly its own reply: the Begin error, its own error, or the fate of its batch |
| Batcher.FirstReplyStays | db.go:155-164 | a reply already sent is the one the caller receives, whatever follows |
| Batcher.BatchProcessor.constructor | db.go:90-91 | the processor starts with nothing pending, no transaction and no replies |
| Batcher.BatchProcessor.SendToPending | db.go:113-115 | the same message is sent to every pending request in order |
| Batcher.BatchProcessor.RefuseRequest | db.go:99-102 | a failed Begin answers only this caller |
| Batcher.BatchProcessor.AbortBatch | db.go:106-117 | rollback, own error, then "Transaction aborted" to the rest; the pending list is truncated |
| Batcher.BatchProcessor.JoinBatch | db.go:97-105 | the request joins the batch, beginning the transaction if it is the first |
| Batcher.BatchProcessor.CommitBatch | db.go:121-128 | commit, send the result to all pending requests, clear the transaction |
| Batcher.BatchProcessor.Step | db.go:94-131 | the imperative loop body changes the state exactly as Next does and keeps Valid |
| Batcher.BatchProcessor.Write | db.go:155-164 | submitting a request and running the following events returns what WriteReply predicts |
| Batcher.ReadMaxOpenConns | db.go:69-73 | the read pool is max(4, CPU count) |
| Batcher.PragmaStatementsFromUnderscoreKeys | db.go:15-21 | every executed pragma comes from a key starting with "_" with the underscore stripped, and every such key is executed |
| Batcher.SetupSqlitePragmas | db.go:14-26 | the pragmas run in table order and stop at the first failure, which is returned; all run when none fails |
| Batcher.ConnectionURL | db.go:28-35 | the URL is "file:" + path + "?" followed by exactly the encoded query string |
| Batcher.QueryEscapeKeepsUnreserved | db.go:33 | text made only of unreserved characters is written into the query unchanged |
| Batcher.QueryEscapeAlphabet | db.go:33 | an escaped key or value holds only unreserved characters, "+" and "%" |
| Batcher.NoSeparatorsInEscape | db.go:33 | an escaped key or value never holds "=" or "&" |
| Batcher.QueryParametersRecovered | db.go:29-34 | the query string splits at "&" back into one "k=v" per sorted pair, and each of those splits at "=" into the escaped key and value |
| Batcher.WriteURL | db.go:55 | the write pool opens exactly the connection URL followed by "&mode=rwc" |
| Batcher.ReadURL | db.go:65 | the read pool opens exactly the connection URL followed by "&mode=ro" |
| Batcher.EncodeQueryOrder | db.go:29-34 | the query lists exactly the pragma pairs, ordered by key, with pairs of one key in table order |
| TxHandle.TxWrapper.constructor | tx.go:9-12 | a new wrapper holds the transaction and no error |
| TxHandle.TxWrapper.Abort | tx.go:14-23 | a second Abort panics and changes nothing; otherwise the error is recorded and the transaction is rolled back exactly once |
| TxHandle.TxWrapper.ExecContext | tx.go:25-35 | refused without calling the transaction once aborted; a failure aborts with that error and returns it |
| TxHandle.TxWrapper.QueryContext | tx.go:36-46 | as ExecContext; on success the rows wrapper refers to this same wrapper |
| TxHandle.TxWrapper.QueryRowContext | tx.go:48-53 | once aborted, the row holds no driver row and the transaction is not called |
| TxHandle.RowWrapper.Scan | tx.go:60-69 | the abort is reported before the (possibly missing) row is used; a failing scan aborts the transaction |
| TxHandle.RowsWrapper.Scan | tx.go:76-86 | refused without touching the cursor once aborted; a failing scan aborts the transaction |
| TxHandle.RowsWrapper.Next | tx.go:87-93 | false once aborted, without asking the cursor |
| TxHandle.RowsWrapper.Close | tx.go:94-100 | the abort error once aborted, without touching the cursor |
| TxHandle.RowsWrapper.Err | tx.go:101-106 | the abort error once aborted, without touching the cursor |
| TxHandle.CursorAfterAbort | tx.go:36-106 | rows obtained before an abort see it: Next is false, Scan and Close report it, the cursor is never touched, one rollback |
| TxHandle.FirstErrorSticks | tx.go:14-23 | a second Abort panics and the first error is the one kept |
| KV.MarshalJSON | kv.go:20-31 | succeeds exactly when every value is a float64 or a string and no float64 is NaN or infinite; a value of another type gives the invalid-value error, else a NaN or infinity gives json.Marshal's unsupported-value error; on success every key is written |
| KV.NaNRefused | kv.go:30 | a NaN passes the type check but json.Marshal refuses it |
| KV.UnmarshalJSON | kv.go:34-50 | the receiver changes only on success, and only to a map of float64s and strings; a decode error is passed on |
| KV.MarshalUnmarshalRoundTrip | kv.go:20-50 | a value that marshals decodes back to itself, whatever the receiver held |
| KV.UnixSeconds | kv.go:147-151 | Unix() rounds nanoseconds down to whole seconds |
| KV.ExpiresColumn | kv.go:147-151 | the expires column is NULL exactly when there is no expiry, else its Unix seconds |
| KV.ExpiresTime | kv.go:229-233 | a non-NULL column reads back as a whole-second time |
| KV.ExpiryTruncatesToSeconds | kv_test.go:71-86 | an expiry read back is truncated to the second, and is unchanged when already whole |
| KV.Lookup | kv.go:207-236 | not found exactly when the key is absent or its expiry is not after now |
| KV.Cleaned | kv.go:122 | cleanup drops exactly the rows whose expiry is before now and keeps the rest as they were |
| KV.PutThenGet | kv_test.go:60-87 | a Put then a Get of the same key gives the data and the truncated expiry, unless that expiry is not after now |
| KV.OtherKeysUnaffected | kv.go:136-256 | writing or deleting one key changes Get for no other key |
| KV.DeleteThenGet | kv_test.go:188-212 | after Delete, Get reports not found |
| KV.CleanupInvisible | kv.go:117-130 | cleanup removes nothing a Get at that time or later could see |
| KV.Ordered | kv.go:277 | ORDER BY sk: the set of keys in strictly ascending order |
| KV.Take | kv.go:278 | LIMIT n: the first n rows, or all of them when n is negative |
| KV.Select | kv.go:268-287 | live rows of pk in range, ascending, at most limit, and nothing qualifying is skipped before the last row returned |
| KV.Token | kv.go:315-321 | the token is the last key returned, or the input key when none is |
| KV.EmptySortKeyRepeatsPage | kv.go:273-287 | a page ending at key "" hands back "" as its token, and the next page with after repeats that row |
| KV.PagesContinue | kv.go:258-260 | with the corrected condition, the next page asked for with the token continues exactly where the last one stopped |
| KV.SelectFixed | kv.go:258-260 | the corrected query: live rows of pk strictly after (or from) start, ascending, at most limit, nothing qualifying skipped |
| KV.SelectFixedAgrees | kv.go:273-287 | the correction changes only an empty start together with after |
| KV.KvStore.Put | kv.go:136-199 | upsert: an invalid value or a refused write leaves the table unchanged; otherwise the key holds the new data and expiry |
| KV.KvStore.Create | kv.go:136-204 | an existing key, even one expired but not yet cleaned up, gives "already exists" and no change; a new key is inserted |
| KV.KvStore.Get | kv.go:206-236 | a failed query returns its error; otherwise Get is the Lookup of the current table: not found, or the decoded data and expiry |
| KV.KvStore.Delete | kv.go:238-256 | removes that one key; an absent key is no error |
| KV.KvStore.CleanupExpired | kv.go:117-130 | the table becomes its Cleaned form, or is unchanged when the statement fails |
| Common.Delivered | kv.go:295-311 | a cursor that fails after n rows yields the first n rows in order, and all of them when it does not fail |
| KV.KvStore.Iterate | kv.go:261-322 | one row per delivered key of the corrected query, in order, with decoded data and expiry, and the token of the last row delivered; a cursor failure is not reported; a failed query returns nothing and the error |
| KV.KvStore.BuildRows | kv.go:295-312 | the scanning loop makes one Row per result row, in order |
| KV.RowOf | kv.go:296-311 | a Row carries its keys, the decoded data with the stored keys, and an expiry exactly when the column is not NULL |
| Fts.OrderMap | fts.go:218-220 | each name of the order is mapped to its last index |
| Fts.OrderFacetsByNames | fts.go:216-242 | the loop builds the order map and returns a stable sort of a copy |
| Fts.OrderedFacetsSpec | fts.go:222-239 | a permutation; named facets first by position, the rest by name; equal names keep their input order |
| Fts.RankLessIsStrictTotalOrder | fts.go:225-239 | the comparison is a strict total order on keys |
| Fts.RankInInjective | fts.go:225-239 | two facets have the same key exactly when they have the same name |
| Fts.SumCounts | fts.go:205-211 | the loop sums the counts of a facet |
| Fts.SortFacetsByTotalDocCount | fts.go:203-214 | sorts in place into a permutation whose summed counts do not increase |
| Fts.Placeholders | fts.go:174-175 | exactly n question marks separated by commas |
| Fts.GetFacetCounts | fts.go:170-201 | no ids means no query and an empty result; a failed query or a failed row scan returns its error and no facets; otherwise each name of the rows the cursor delivered once, with its values in row order, and a cursor that fails midway goes unnoticed |
| Fts.GroupByName | fts.go:184-193 | the grouping loop gives each name its values in row order, and stops with the scan error when a row fails to scan |
| Fts.Groups | fts.go:195-198 | each grouped name appears once in the result |
| Fts.StringsToInterfaces | fts.go:244-251 | same length and order |
| Fts.GetDocIDsFromSearchResults | fts.go:253-259 | one docid per result in order, "" where there is none |
| Fts.SetContent | fts.go:70 | the update changes the content of exactly the documents with that docid |
| Fts.DocumentStore.Put | fts.go:60-93 | a failed read of the content returns its error before any write; otherwise update all documents with the docid, insert one only when none was updated; a failed write changes nothing |
| Fts.PutContents | fts.go:69-86 | afterwards the docid is present, all its documents hold the new content, others are unchanged, and no copy is added |
| Content.KeepIfShorter | content.go:47-52 | a variant is kept exactly when it exists and is strictly shorter than the original |
| Content.NewContentHandler | content.go:35-61 | the handler holds only variants strictly shorter than its content |
| Content.ChooseEncodingSpec | content.go:114-141 | brotli exactly when "br" is accepted, it exists and gzip is absent or longer; else gzip exactly when accepted and present; else identity |
| Content.ServedNoLonger | content.go:47-52 | what is served is never longer than the content, and shorter when compressed |
| Content.BothAcceptedGetsShortest | content.go:114-141 | a client accepting both gets the shorter variant |
| Content.ServeHTTP | content.go:121-151 | sets Content-Type, Content-Length of the bytes written, Cache-Control, and Content-Encoding only for br or gzip; writes the chosen bytes |
| Content.StaticContentHandler | content.go:161-177 | gzip is served only if compression succeeded and is strictly shorter |
| Content.ServeStatic | content.go:179-203 | a matching If-None-Match gives 304 and nothing else; otherwise Etag and Content-Type are set, and gzip is sent when allowed and accepted |
| Content.StaticServedNoLonger | content.go:175-201 | a static handler never sends more bytes than the content |
| Actor.TrimBearer | actor.go:16-25 | the result is never longer than the header and has no surrounding white space |
| Actor.BearerTokenExtracted | actor.go:20-22 | the scheme in any letter case, with any white space around it, leaves exactly the credentials |
| Actor.OtherHeaderTrimmed | actor.go:24 | without the scheme, only the surrounding white space is removed |
| Actor.SchemeOnly | actor_test.go:21 | "Bearer" gives "" |
| Actor.SchemeAndSpace | actor_test.go:22 | "Bearer " gives "" |
| Actor.EmptyHeader | actor_test.go:20 | "" gives "" |
| Actor.PaddedHeader | actor_test.go:23 | "  Bearer     abc123   " gives "abc123" |
| Actor.GluedSchemeRemoved | actor.go:20-22 | "Bearerabc123" gives "abc123": no space is required after the scheme |
| Site.Chain | navsitemap.go:88-93 | following parents from a section ends at a section without a parent; every step is a parent link |
| Site.BuildPageMapEffect | nav.go:79-85 | afterwards every page of the subtree has the section and is registered under its URL; no other page or parent changes |
| Site.ParentsAfterBuild | nav.go:73-76 | after the build every child section's parent is a section that lists it as a child |
| Site.PagesAfterBuild | nav.go:68-77 | after the build every page of every section's page tree has that section and is in the map under its URL |
| Nav.RelativeURL | nav.go:210-218 | a destination not starting with "/" is returned unchanged; a rooted one goes through rel |
| Nav.BuildPageMap | nav.go:79-85 | the links change by exactly the writes of PageWrites, depth first |
| Nav.BuildPageInSectionMap | nav.go:68-77 | the links change by exactly the writes of SectionWrites |
| Nav.RegisterSectionPage | nav.go:69-72 | the section's page is registered, then its page tree |
| Nav.LinkChildSections | nav.go:73-76 | each child section gets the parent link and then its own writes, in order |
| Nav.GenerateBreadcrumbs | nav.go:87-110 | the crumbs are the reverse of those collected walking up from the page's section |
| Nav.ReverseInPlace | nav.go:103-106 | the swap loop reverses the array |
| Nav.CrumbOf | nav.go:91-100 | a crumb is unlinked exactly for the page's own section when the page is that section's page; only that crumb's title falls back to the page title, while a linked crumb shows the section title as it is and links to the section page's URL made relative |
| Nav.UntitledSectionCrumb | nav.go:92-99 | an untitled section's crumb shows the page title only when current; as a link its text is empty |
| Nav.BreadcrumbsOrder | nav.go:90-106 | the crumbs are those of the page-bearing sections, outermost first, down to the page's section |
| Nav.BreadcrumbsCurrentLast | nav.go:92-99 | only the last crumb can be unlinked, and it is exactly when the page is its section's page |
| Nav.CrumbsOnlyHomeCurrent | nav.go:96-99 | only the page's own section can give an unlinked crumb |
| Nav.LinkTo | nav.go:148-152 | no link exactly when the page is the current one (unless everything is linked) or its URL is the current path |
| Nav.AppendChildPagesNav | nav.go:145-160 | appends exactly the lines of PageListNav |
| Nav.AppendPageNav | nav.go:148-158 | one page's entry, then its children in a nested list if it has any |
| Nav.GenerateChildSectionsNav | nav.go:112-120 | one link per child section, in order, with the section title |
| Nav.GenerateSectionNav | nav.go:122-143 | the lines are exactly SectionNav |
| Nav.SectionNavShape | nav.go:128-141 | the list opens with the class, then the section's page (unlinked exactly when it is the current page or path), and ends with the close |
| Nav.SectionNavEntries | nav.go:137-153 | the entries are every page under the section's page, once each, depth first, with its title, linked exactly when allowed |
| Nav.SectionNavNesting | nav.go:154-158 | nested lists balance, and one opens exactly after the entry of each page that has children |
| Nav.SectionNavChildSections | nav.go:138-140 | child-section links appear, one per child in order, exactly when the class is not "sitemap" |
| Nav.PageNavEntries | nav.go:145-160 | a page's lines name its subtree in preorder |
| Nav.PageNavBalanced | nav.go:154-158 | a page's lines have balanced nesting |
| Nav.AddIndentation | nav.go:195-203 | the lines are indented and rejoined; with an indent without newlines the line count is kept, empty lines stay empty and the others gain the indent |
| Sitemap.Level | navsitemap.go:88-93 | every section's level is at least 1 |
| Sitemap.LevelCountsChain | navsitemap.go:88-93 | a section's level is the length of its chain of parents |
| Sitemap.ClimbLevel | navsitemap.go:43-46 | the climb stops at an ancestor (or none) shallower than the new level, and the new section lands one below it |
| Sitemap.OnHeading | navsitemap.go:29-53 | a heading keeps the tree well formed and leaves a current section for every level from 2 |
| Sitemap.TitleHeadingIgnored | navsitemap.go:33-35 | a level-1 heading changes nothing, not even the current page |
| Sitemap.HeadingResetsPage | navsitemap.go:53 | any other heading resets the current page |
| Sitemap.FirstLevelTwoIsRoot | navsitemap.go:38-40 | the first level-2 heading creates the root, without a parent, and makes it current |
| Sitemap.RootKept | navsitemap.go:38-51 | once set, the root never changes |
| Sitemap.LaterLevelTwoDetached | navsitemap.go:41-51 | a later level-2 heading gets no parent and is attached to no section |
| Sitemap.NewSectionPlacement | navsitemap.go:41-51 | a new section sits at depth min(current+1, level-1) as the last child of the current section or one of its ancestors |
| Sitemap.OnLink | navsitemap.go:55-78 | a link keeps the tree well formed and leaves a current page |
| Sitemap.LinkPlacement | navsitemap.go:71-77 | the first link after a heading becomes the section's page; each later one a child of the previous page; the new page becomes current |
| Sitemap.NewPageFields | navsitemap.go:59-69 | the title is the link title or else its text; the URL is the destination with ".md" replaced by ".html", joined to the directory |
| Sitemap.RunCounts | navsitemap.go:23-85 | one section per heading of level 2 or more, one page per link; a root exactly when a level-2 heading occurs |
| Sitemap.SitemapBuilder.Heading | navsitemap.go:29-53 | the imperative heading handler, with its climbing loop, does what OnHeading says |
| Sitemap.SitemapBuilder.LinkItem | navsitemap.go:55-78 | the imperative link handler does what OnLink says |
| Sitemap.ParseSitemap | navsitemap.go:14-86 | the walk returns the tree of Run: well formed, a root exactly when there is a level-2 heading, counts as in RunCounts |
| NavTransformer.Relative | navtransformer.go:31-52 | absolute goes through rel; self links give the page's Markdown name; anything else loses one leading "./" and is kept |
| NavTransformer.Rewrite | navtransformer.go:20-24 | "http" links are untouched; every other link ends in ".html" |
| NavTransformer.DotSlashDropped | navtransformer.go:37-38 | a leading "./" makes no difference to other links |
| NavTransformer.SelfLinkLeadsHome | navtransformer.go:43-48 | ".", "" and those after "./" are rewritten to the page's own file name |
| NavTransformer.MarkdownLinkToPage | navtransformer.go:23 | a relative link to "x.md" becomes "x.html" |
| NavTransformer.OtherLinkGainsHtml | navtransformer.go:23 | any other relative link keeps its target and gains ".html" |
| NavTransformer.AbsoluteLinkMadeRelative | navtransformer.go:32-34 | an absolute link is made relative by rel, then given ".html" |
| NavTransformer.FileNameAsWritten | navtransformer.go:16-21 | the source's file name: the path minus as many characters as its directory has |
| NavTransformer.FileName | navtransformer.go:16-21 | the corrected file name: what follows the last slash |
| NavTransformer.FileNamesAgreeAtRoot | navtransformer.go:16-21 | for a page in the root both file names are the page's name |
| NavTransformer.FileNamesAgreeUnderCleanDir | navtransformer.go:16-21 | when the path is a clean directory, "/" and a file name, the directory is that directory, the source's file name is the corrected one with the slash before it, and both rewrite every link alike |
| NavTransformer.DoubledSlashMisdirects | navtransformer.go:21 | on a clean directory, two slashes and a page name ending in ".html", the directory is that directory, the source's file name keeps both slashes and a link to "." is sent to "/" + the name; the corrected name sends it to the name |
| NavTransformer.DoubledSlashExample | navtransformer.go:21 | on "/a//b.html" the directory is "/a" and a link to "." is sent to "/b.html" rather than "b.html" |
| NavTransformer.FileNameAsWrittenDropsLetter | navtransformer.go:21 | on any slash-free page name ending in ".html" the directory is ".", the source's file name loses its first character and a link to "." leads to that shortened name; the corrected name leads back to the page |
| NavTransformer.IndexLosesLetter | navtransformer.go:21 | on "index.html" the source's file name is "ndex.html" and a link to "." is rewritten to "ndex.html" |
| NavTransformer.Transform | navtransformer.go:15-29 | every destination is rewritten in place, in document order, against the page's directory and corrected file name |
| NavTransformer.RewriteLinks | navtransformer.go:17-28 | the walk replaces each destination by its rewriting, in document order |

## Left out

- Goroutines, channels, the ticker period and the blocking in `DB.Write` are replaced by explicit event sequences. `DB.Close` and its lock are not modelled.
- Opening the SQLite pools, the driver globals and the SQL engine itself are left out. KV and FTS work over maps and sequences, with `now` passed in.
- `FTS.Delete`, `FTS.Get`, `FTS.Search`, `FTS.AddFacets` and `NewFTS` are left out: they are single SQL statements whose meaning is FTS5 matching.
- `NewKV`, `ensureTableExists` and the cleanup goroutine's timer are left out: they are setup and scheduling. One cleanup pass is `KV.KvStore.CleanupExpired`.
- Gzip and brotli compression, `compressContent`, the HMAC-SHA256 hash and the MD5 ETag are left out. Their outputs are inputs to the model.
- JSON float64 values are compared only by their bit pattern. No float arithmetic is modelled; only the exponent field is read, to tell NaN and the infinities apart.
- `Actor.ToLower` changes only ASCII letters. Go's `strings.ToLower` also lowers other Unicode letters, which cannot start "bearer" anyway.
- `ActorHandleCall`, `ActorRemoteCall` and `PollForHealth` are HTTP plumbing and are left out.
- `filepath.Rel` is a parameter. `Dir`, `Join` and `Clean` are modelled lexically over '/'-separated strings.
- Goldmark parsing and rendering (`ConvertMarkdownToHTML`, `Page.ConvertMarkdownToHTML`) are left out, and so is `Page.once`, which is concurrency. The sitemap walk is fed with its events, and the link walk with the array of destinations.
- HTML escaping and the exact markup are not modelled. Navigation output is a sequence of `NavLine` values, and breadcrumbs a sequence of `Crumb` values.
- `PageHandler.ServeHTTP`, `renderTemplate`, `DumpPage` and `DumpSection` are left out: they are output plumbing.
- KV.KvStore.Iterate: selects with the corrected sort-key condition of the first finding below. The code differs only for an empty start together with `after`; `KV.SelectFixedAgrees` proves they agree everywhere else.
- KV.KvStore.Iterate: the Scan and JSON decode errors of kv.go:299-305 are not modelled. The table holds only rows that Put and Create wrote, so their column types always scan and their documents always decode.
- KV.KvStore.Get: the JSON decode error of kv.go:224-227 is not modelled, for the same reason. A failed query is the `query` parameter.
- KV.KvStore.Put: in Go the JSON encoding runs inside the write transaction (kv.go:141-145), so a failed Begin is reported even for a value that does not encode. The model checks the value first and returns its error. The same holds for KV.KvStore.Create.
- NavTransformer.Transform: uses the file name after the last slash, not navtransformer.go:21's cut of as many characters as the directory has (second finding below). The two rewrite every link alike whenever the path is a clean directory, a slash and a file name (`NavTransformer.FileNamesAgreeUnderCleanDir`; "/docs/guide.html" is such a path, and so is "/" followed by a name). They differ for a path without a slash and for a doubled slash before the file name. Go also panics on an empty path when the document has a link, since the directory "." is longer than the path; the model has no such case.
- TxHandle.TxWrapper.Abort: where tx.go:17-19 panics on a second abort, the model returns `panicked` and leaves the state unchanged. What a caller does after the panic is not modelled.
- Content.ResponseRecorder.Set: keys are stored as given. `http.Header.Set` would first bring them into canonical form; the handlers pass keys already in that form, so "ETag" appears as "Etag". `textproto.CanonicalMIMEHeaderKey` itself is not modelled.
- Sitemap.ParseSitemap: the error result is always nil and is not returned. A link item before any heading makes Go dereference nil, so the model requires a heading of level 2 or more first.
- Nav.GenerateSectionNav: Go dereferences nil when the page has no section, the section has no page, or a child section has no page. The model requires these to exist.
- Batcher.SetupSqlitePragmas: Go iterates its pragma map in an unspecified order. The model takes the iteration order as the sequence passed in.
- Fts.GetFacetCounts: the order of the groups follows Go's map iteration, so any order is allowed. The model states no order between groups.
- Fts.SortFacetsByTotalDocCount: `sort.Slice` is not stable, so nothing is stated about the order of facets with equal totals.
- The rows wrapper's cursor stub counts uses but returns only the answers it is given. Driver behaviour is not modelled.

The test at actor_test.go:14 expects "Bearerabc123" to give "", but the code at actor.go:20-22 gives "abc123". The model follows the code; `Actor.GluedSchemeRemoved` states what it does.

## Findings

| source | as written | input that shows it | evidently intended | confidence | as-written member | corrected member |
|---|---|---|---|---|---|---|
| kv.go:273-287 | when `sk` is "", the sort-key condition is dropped altogether, so `after` is ignored | a table holding only key ("p", ""); Iterate("p", "", 1, false) returns [""] with token "", and Iterate("p", "", 1, true) returns the same row again | `after` with start "" means keys strictly greater than "" (kv.go:259-260) | medium, not executed | KV.EmptySortKeyRepeatsPage | KV.PagesContinue |
| navtransformer.go:21 | the file name is the path with its first len(Dir(path)) characters cut off, which assumes the directory is a prefix of the path | currentPath "index.html": Dir is ".", the file name becomes "ndex.html", and a link to "." is rewritten to "ndex.html" | the file name after the last slash, so that a self link leads to the page itself | medium: paths with a doubled slash before the file name also go wrong ("/a//b.html" sends "." to "/b.html", `NavTransformer.DoubledSlashExample`); not executed | NavTransformer.IndexLosesLetter | NavTransformer.SelfLinkLeadsHome |
