# Verified model of the feed aggregator

The aggregator polls feeds, stores their entries under a canonical URL, tags them by
rules, and serves each reader a filtered, paged feed to a web client. This project models
the parts of it that decide things and proves what they promise. `dafny verify
dfyconfig.toml` checks it.

| part | files |
|---|---|
| text, numerals, UTF-8, query strings | `Text`, `Numerals`, `Utf8`, `QueryString` |
| canonical URLs and the dedup key | `Normalise`, `CanonicalKey` |
| numeric IPv4 forms and the host check | `Ipv4`, `UrlGuard` |
| URL mutes: what is stored, what it hides | `UrlMutes` |
| cursors, keyset pages, feed and bookmark listings, what a page shows | `Pagination`, `Items`, `Keyset`, `Feed`, `FeedFilter` |
| the client hook that accumulates pages | `PagedResource` |
| feed text made plain; the store: refresh, prune, bookmark | `PlainText`, `Store`, `Ingest` |
| operator passes: re-tag, language detection | `Retag`, `Languages` |
| the feed over a store that moves; the hook against a feed that stands still | `Traversal`, `Client` |
| rate limiter, OAuth states, sessions, refresh status, readiness probe | `RateLimit`, `OAuthState`, `Sessions`, `SourceStatus`, `BoundedCheck` |
| the exploited-vulnerabilities catalogue, printed and read back | `Kev`, `PublicSnapshot`, `KevRoundTrip` |

Conventions. Instants are whole microseconds since the epoch in UTC, except in `RateLimit`
and `OAuthState`, where a clock reading is a real number. Objects the source updates in
place are classes (`Database`, `SlidingWindowLimiter`, `StateStore`, `SessionStore`,
`SourceStatusRegistry`, `Check`); each method is proved against a function of the old
state, and the lemmas are about that function over runs. A table is a finite map, and
each SQL statement is one step. Concurrent code is a state machine whose actions are the
sections that hold the lock, the statements, or the renders, effects and responses. Clock
readings, fresh nonces and tokens, and the outcome of a fetch are parameters. Code that is
foreign to the repository is a function value the results hold for whatever it answers:
language detection, the markup stripper, the URL ruleset, full-text matching, the
signature, the IPv6 predicates.

Where the source and its own documentation disagree, the model follows the code:

- `url_mute_term` says its reduction is idempotent. It is exactly when the host left over
  still has a dot and is not a numeric IPv4 form: `www.com` and `www.1.2.3.4` are stored
  and then refused by every later save (`UrlMutes.ReductionIsIdempotentIff`).
- `_backoff` says a failing source is not polled at its ordinary interval. Above six hours
  it is polled sooner (`SourceStatus.BackoffCoversIntervalIff`).
- `parse_kev_item` recovers the facts unless the plain text of a description ends in the
  sentence of a fact the entry lacks, and takes apart any title that still holds its
  identifier (`KevRoundTrip.EntryReadsBack`, `KevRoundTrip.QuotingIsMisread`).
- The number `upsert_items` reports is the growth of the table for a batch without
  repeated new URLs, which is what `normalise_entries` hands it (`Store.ReportedIsGrowth`,
  `Ingest.RefreshSource`).
- `usePagedResource` keeps entries to their key as long as a `loadMore` made under one key
  is not called once another key's effects are in force (`PagedResource.PromptIff`,
  `PagedResource.StaleHandlerMixes`).

## Model

| member | source | states |
|---|---|---|
| Numerals.DecimalReadsBack | app/services/pagination.py:53-54 | `int(str(n)) == n` for every integer, the negative ones cursors carry included |
| Numerals.OctalReadsBack | app/ingest/urlguard.py:241-242 | `int("0" + octal digits, 8)` gives the number back, for every number |
| Numerals.HexReadsBack | app/ingest/urlguard.py:239-240 | `int("0x" + hex digits, 16)` gives the number back, for every number |
| Ipv4.ParseNumericIpv4 | app/ingest/urlguard.py:216-263 | the loop over the dotted parts answers exactly when there are one to four well-formed parts in range, and then with the address they name |
| Ipv4.Pack | app/ingest/urlguard.py:256-259 | shifting and or-ing the parts together is the positional sum in base 256, for values in range |
| Ipv4.OrIntoClearedBits | app/ingest/urlguard.py:258-259 | or-ing a value into the low bits a shift has cleared is addition |
| Ipv4.NumericIpv4Is32Bit | app/ingest/urlguard.py:252-263 | every decoded address is below 2^32, so building the address object never fails |
| Ipv4.EveryRenderingDecodes | app/ingest/urlguard.py:216-263 | any 32-bit address, written in one to four parts, each part in any of the three radices, decodes to itself |
| UrlGuard.DottedReadsBack | app/ingest/urlguard.py:461-472 | the dotted text printed for a 32-bit address is read back strictly as that address |
| UrlGuard.StrictAgreesWithNumeric | app/ingest/urlguard.py:461-472 | on four strict decimal parts the numeric decoder answers as the strict reading does, the sum of four bytes by position, and refuses what it refuses |
| UrlGuard.ValidationIsFixpoint | app/cli/operations.py:132-158 | a host that validation accepts is a fixpoint of the check: the canonical text of an allowed literal, or a normalised name that is no literal in any form |
| UrlGuard.OnePassIsEnough | app/ingest/urlguard.py:330-352 | one pass lands on a fixpoint if and only if the host is a literal already, or cleaned up is no literal, or an allowed one written canonically |
| UrlGuard.TrailingDotHidesLiteral | app/cli/operations.py:141-150 | any multi-part numeric literal with a dot after it passes once as a name; the second pass judges the address it is |
| UrlGuard.OnePassAdmitsLoopback | app/cli/operations.py:144-147 | every loopback literal in every radix, dot after it, is admitted by one pass and refused by two |
| UrlGuard.PublicV4Iff | app/ingest/urlguard.py:63-79 | by its four bytes: which IPv4 addresses are let through, the sixteen blocked networks and no other being kept out |
| UrlGuard.NumericIsValid | app/ingest/urlguard.py:330-352 | any numeric IPv4 form validates to its dotted text if and only if the address it names is public |
| UrlGuard.V6IsValid | app/ingest/urlguard.py:330-352 | an IPv6 literal, bare or in brackets, validates to its canonical text if and only if it is public |
| UrlGuard.NameIsValid | app/ingest/urlguard.py:276-292 | a name that is no literal, in any letter case, white space around it and dots after it, validates to its lower-case form exactly when that has two labels or more, none empty, the last not reserved, at most 253 of the allowed letters, and no dash at either end |
| Utf8.DecodeEncode | app/ingest/normalise.py:170-180 | decoding the UTF-8 of any text, replacement of broken sequences included, gives the text back |
| QueryString.UnquoteQuote | app/ingest/normalise.py:174-180 | unquoting undoes `quote_plus` on every text |
| QueryString.ParseEncode | app/ingest/normalise.py:174-180 | `parse_qsl` of `urlencode` gives back the same pairs in the same order, whatever characters they hold |
| QueryString.SortSorts | app/ingest/normalise.py:180 | sorting the pairs keeps them as a bag and puts them in order |
| QueryString.SortedIsUnique | app/ingest/normalise.py:180 | two sorted lists of the same bag of pairs are the same list |
| Normalise.ParseShow | app/ingest/normalise.py:192-216 | printing a well-formed URL and parsing it again gives every part back |
| Normalise.AssembledParses | app/ingest/normalise.py:192-216 | read back from its parts: scheme and host in lower case, the port unless it is 80 for http or 443 for https, credentials, path and query as written |
| Normalise.CleanQueryIdempotent | app/ingest/normalise.py:170-180 | cleaning a cleaned query changes nothing |
| Normalise.UpperEscapesIdempotent | app/ingest/normalise.py:206-210 | upper-casing percent escapes is idempotent and makes no new escape |
| Normalise.UpperEscapesAt | app/ingest/normalise.py:206-210 | character by character: exactly the hex digits of percent escapes are put in upper case |
| Normalise.FeedHostText | app/ingest/normalise.py:239-262 | an accepted host is lower-case, dotted, without a trailing dot and no IP literal, and is accepted again as itself |
| Normalise.NormalIsNormal | app/ingest/normalise.py:183-219 | normalising what was normalised changes nothing, and the result is a well-formed URL that prints and parses back |
| Normalise.NormaliseIdempotent | app/ingest/normalise.py:183-219 | the stored key of a URL is its own key |
| CanonicalKey.SameKeyIffSameResource | app/ingest/normalise.py:183-219 | two accepted URLs get one key if and only if they agree on scheme, feed host, port, escape-folded path and the bag of non-tracking query pairs |
| CanonicalKey.SpellingsShareOneKey | app/ingest/normalise.py:165-219 | URLs that differ only in query-pair order, tracking fields and the case of percent escapes share one key |
| CanonicalKey.FragmentIsDropped | app/ingest/normalise.py:192-216 | a fragment changes nothing in the parsed URL |
| CanonicalKey.FragmentMakesNoKey | app/ingest/normalise.py:183-219 | a URL with a fragment, within the length limit, has the key of the URL without it |
| CanonicalKey.FieldIgnoresCase | app/ingest/normalise.py:174-180 | a query field reads the same whatever the hex case of its escapes |
| CanonicalKey.TrackingFieldMakesNoKey | app/ingest/normalise.py:78-180 | a field anywhere in the query whose decoded name, in any letter case, starts with one of the seven prefixes or is one of the 27 listed names leaves the key as it is without the field |
| CanonicalKey.OtherFieldsAreKept | app/ingest/normalise.py:165-180 | a field with any other name is among the pairs of the key's query, decoded name and decoded value |
| CanonicalKey.CredentialsAreRefused | app/ingest/normalise.py:183-204 | a link with credentials before its host has no key |
| CanonicalKey.KeyKeepsParts | app/ingest/normalise.py:183-219 | the key keeps scheme, host without trailing dots, every port but the scheme's own, and the path character by character, hex digits of escapes aside, `/` standing for none |
| CanonicalKey.TakenIff | app/ingest/normalise.py:239-262 | without a query, a link within the length is taken if and only if its host, dots at its end aside, has a dot and is no numeric IPv4 form |
| CanonicalKey.PlainSpellingsShareOneKey | app/ingest/normalise.py:183-219 | letter case of scheme and host, dots after the host, the scheme's own port and an empty path make no second key |
| UrlMutes.MutedIffSameSite | app/services/feed.py:440-511 | the prefix strip, `substr` and boundary test hold, for every canonical URL and stored term, exactly when the URL has no port, its host less one `www.` is the term's host, and the term has no segment or the lower-cased first path segment |
| UrlMutes.AcceptedTerm | app/services/preferences.py:307-341 | what is accepted reduces to a bare lower-case host, or host and one segment, without `www.` and within the column; it is a bare host exactly when the link has no path |
| UrlMutes.LinkWithScheme | app/services/preferences.py:313-320 | a link pasted with http or https, in any letter case, is reduced from its own canonical form, and is refused as no URL if and only if it has none |
| UrlMutes.LinkWithoutScheme | app/services/preferences.py:313-314 | a link pasted without a scheme, with or without leading slashes, is reduced as the https link |
| UrlMutes.TermFromLink | app/services/preferences.py:254-341 | a stored term comes back from every link to its site: http or https, `www.` or not, a query or a longer path after it; without `www.` if and only if its host is a host still |
| UrlMutes.ReduceOutcome | app/services/preferences.py:322-341 | which refusal a canonical URL gets, for a second `www.`, a port, a path that starts with `//`, or more than 64 characters, in that order, and that nothing else is refused |
| UrlMutes.LinkIsMutedByItsTerm | app/services/preferences.py:254-341 | every link the reduction accepts is itself hidden by the term it becomes |
| UrlMutes.SavingATermAgain | app/services/preferences.py:277-341 | reducing a stored term gives the term back, or refuses it when its host has no dot or is a numeric address |
| UrlMutes.ReductionIsIdempotentIff | app/services/preferences.py:277-303 | the reduction is idempotent on a link if and only if the host of its canonical URL, less one `www.`, still has a dot and is no numeric IPv4 form; the documented claim has no such condition |
| UrlMutes.WwwTrap | app/services/preferences.py:295-299 | any host that counts as one only through its `www.` is stored once and refused on every later save |
| UrlMutes.WwwComIsLost | app/services/preferences.py:322-331 | `www.com` is stored as `com`, which the next save refuses |
| UrlMutes.WwwNumberIsLost | app/services/preferences.py:322-331 | `www.` before any multi-part numeric IPv4 form is stored as the number, which the next save refuses |
| UrlMutes.ResavingTheList | app/services/preferences.py:162-169 | sending the stored list back stores the same list, unless one term's host is a host no longer, and then the whole save is refused |
| Pagination.ScanBase64 | app/services/pagination.py:58-66 | decoding the URL-safe base64 of any bytes gives the bytes back (section 5 of RFC 4648) |
| Pagination.PaddingIsRestored | app/services/pagination.py:55-65 | the padding computed from the length of an unpadded cursor is the padding that was stripped |
| Pagination.CursorRoundTrip | app/services/pagination.py:50-76 | `decode_cursor(encode_cursor(t, id))` is exactly `(t, id)` for every instant a datetime holds, before the epoch too, and every id |
| Pagination.OnlyVersionOne | app/services/pagination.py:58-76 | a cursor of any other version is refused as such, one outside the instants a datetime holds as malformed, and every other is accepted |
| Pagination.AcceptedCursorHasOneMeaning | app/services/pagination.py:58-76 | whatever spelling is accepted, the cursor minted for its position decodes the same |
| Pagination.CursorsAreDistinct | app/services/pagination.py:50-55 | two positions share a cursor only if they are equal |
| Keyset.PageIsFront | app/services/feed.py:104-119 | a page is the front of what remains after its cursor, newest first, and its own cursor marks its last row |
| Keyset.PageCovers | app/services/feed.py:104-119 | row by row: a row is on a page exactly when it matches, lies below the page's cursor and not below the next one |
| Keyset.FollowIsSound | app/services/feed.py:101-119 | page by page: whatever a page holds was matched by that page's own request and lies below the cursor it was asked for with |
| Keyset.NothingTwice | app/services/feed.py:101-119 | following cursors over listings that change in any way but moving a row down never returns an id twice |
| Keyset.NothingLost | app/services/feed.py:101-119 | a row that stands at its position at every request made is returned by the time the pages run out |
| Keyset.FixedListing | app/services/feed.py:101-119 | on a listing that does not change the pages join up to the whole sorted list, in as few pages as hold it |
| Feed.MatchingRows | app/services/feed.py:159-202 | the filtered statement returns exactly the rows its condition holds of, at `(published_at, id)`; `FeedFilter.VisibleIff` says which those are |
| Feed.FeedPageHolds | app/services/feed.py:81-119 | a page is refused exactly for a cursor that does not decode; otherwise it holds, newest first and within the limit, exactly the visible items below its cursor and not below the next |
| Feed.FeedTraversal | app/services/feed.py:81-119 | with inserts, prunes, reads, mutes and filters changing between pages, no item comes twice, and one there and matching at each request comes |
| Feed.FixedFeed | app/services/feed.py:81-155 | with nothing changing the pages end, and hold exactly the visible items, newest first |
| FeedFilter.VisibleIff | app/services/feed.py:122-202 | the statement's condition holds of exactly the items of enabled sources that fit the read state, the sources, topics, words and languages asked for or saved, and carry no muted word, tag or site |
| FeedFilter.PageShows | app/services/feed.py:81-202 | a page shows, newest first, exactly the items that satisfy every one of those clauses, lie beyond its cursor and not beyond the next |
| FeedFilter.FixedFeedShows | app/services/feed.py:81-202 | followed from the start with nothing changing, the pages show exactly the items that satisfy every clause |
| FeedFilter.PastedLinkIsKeptOut | app/services/preferences.py:254-341 | from the paste to the page: after any run of the store, whatever is asked for, no page shows an item on the site a pasted link was reduced to |
| Feed.SavedRows | app/services/bookmarks.py:80-90 | the bookmark listing is exactly the reader's saved items at `(created_at, id)`, muted or disabled alike |
| Feed.BookmarkPageHolds | app/services/bookmarks.py:80-107 | the same of a page of bookmarks, by the instant of saving |
| Feed.BookmarkTraversal | app/services/bookmarks.py:80-107 | paging bookmarks while they come and go returns nothing twice and loses nothing that stayed |
| Traversal.FeedOverMovingStore | app/services/feed.py:101-119 | over any store, with any refreshes, prunes, saves and unsaves of the modelled store between requests, nothing comes twice and nothing that stayed and matched is lost |
| Traversal.ClientShowsThePages | frontend/src/data/usePagedResource.ts:90-100 | pages without repeated ids are joined as they are: the duplicate check drops nothing of what the server sends |
| Client.ClientShowsTheFeed | frontend/src/data/usePagedResource.ts:123-221 | on a feed that does not change, a hook that is ready and shows no cursor shows every visible item, newest first, each once |
| Client.ClientShowsPrefix | frontend/src/data/usePagedResource.ts:123-221 | at every moment of a run of renders, effects, `loadMore` calls and responses under one key, against a feed that does not change, the entries shown are a prefix of the pages joined; all of them once the view is ready and shows no cursor; the cursor shown names the last of them unless a call captured an older cursor, which only sets it back |
| Client.FurtherPageShows | frontend/src/data/usePagedResource.ts:197-213 | a page fetched with any cursor shown before adds exactly what lies beyond the entries loaded |
| Client.MergedStretch | frontend/src/data/usePagedResource.ts:90-100 | merging a stretch of the list that starts within what is loaded gives the longer prefix of the two |
| PagedResource.MergeUnique | frontend/src/data/usePagedResource.ts:90-100 | the loop over the incoming page computes the merge the other rows are about |
| PagedResource.MergedIs | frontend/src/data/usePagedResource.ts:90-100 | a merge only appends, keeps ids distinct, and its ids are those of both sides |
| PagedResource.RepeatedPageIsDropped | frontend/src/data/usePagedResource.ts:102-107 | merging a page whose ids are all there changes nothing |
| PagedResource.WithoutIds | frontend/src/data/usePagedResource.ts:251-260 | removing an entry takes that id and no other |
| PagedResource.ActionKeeps | frontend/src/data/usePagedResource.ts:113-262 | every render, effect flush, `loadMore`, response, patch, removal and unmount keeps: entries of the current key with distinct ids, live requests of the key in force, one first page and one continuation at most, the ref naming exactly the live continuation; of a `loadMore` that starts a request it needs what `PromptIff` shows to be necessary |
| PagedResource.EntriesBelong | frontend/src/data/usePagedResource.ts:123-221 | after any interleaving from mounting on in which each `loadMore` that starts a request was made under the key in force, the entries were fetched for the key they are shown under, ids are distinct, and at most one continuation is live |
| PagedResource.SupersededIsDropped | frontend/src/data/usePagedResource.ts:141-187 | once the effects of a new key have run, or the component is gone, no request open before that ever writes, however the run goes on |
| PagedResource.LoadingAppends | frontend/src/data/usePagedResource.ts:197-221 | a continuation's response leaves the loaded entries in front, and appends a page of new ids whole and in order |
| PagedResource.SpinnerHasRequest | frontend/src/data/usePagedResource.ts:189-221 | while the view says it is loading more there is a live request, and its response, good or bad, ends that |
| PagedResource.FirstResponse | frontend/src/data/usePagedResource.ts:123-187 | a new component shows a spinner and asks for its first page once, the answer shows page and cursor or the error; switched off it is ready and asks for nothing |
| PagedResource.MoreResponse | frontend/src/data/usePagedResource.ts:189-235 | with a cursor shown and nothing in flight `loadMore` asks for that cursor, a second call asks for nothing, and after the answer, page or error, the reader can ask again |
| PagedResource.KeyChange | frontend/src/data/usePagedResource.ts:123-187 | another key blanks the view; its effects abort every open request and ask for its own first page; a render under the same key changes nothing |
| PagedResource.PromptIff | frontend/src/data/usePagedResource.ts:189-196 | a call of `loadMore` keeps what the hook relies on if and only if the guard refuses it or its closure was made under the key whose effects are in force |
| PagedResource.StaleHandlerMixes | frontend/src/data/usePagedResource.ts:189-221 | a handler kept across a key change, called, and the old key restored before the response: the new key's entries show under the old key |
| Store.Database.UpsertItems | app/ingest/store.py:192-277 | the whole effect on items and links of one batch: new rows inserted or ignored, source links asserted or promoted, rule links filled in |
| Store.Database.FindExisting | app/ingest/store.py:213-222 | asking a chunk at a time finds exactly the batch's URLs that are stored |
| Store.Database.LinkSourceTopics | app/ingest/store.py:81-121 | pair by pair: the links are the old ones and the asserted ones, and a link is the source's exactly if it is asserted or was the source's |
| Store.Database.InsertRuleLinks | app/ingest/store.py:164-189 | pair by pair: the links are the old ones and the derived ones; a link that was there keeps its owner, a new one is the rule's |
| Store.LinkAllIs | app/ingest/store.py:81-189 | after an upsert the links are the old ones and the asserted ones, and a link is the source's exactly if it was or is asserted so: promotion goes one way |
| Store.NewRowsAre | app/ingest/store.py:213-224 | the rows picked for insertion name exactly the batch's URLs that are not stored |
| Store.InsertedItems | app/ingest/store.py:225-239 | insert-or-ignore keeps URLs unique and ids fresh, stores exactly the batch's URLs besides those there, and grows the table by the new ones |
| Store.ReportedIsGrowth | app/ingest/store.py:276-285 | the reported number is never below the table's growth, and equals it if and only if no new URL is in the batch twice |
| Store.UpsertStores | app/ingest/store.py:213-239 | after a batch old rows are as they were, every URL of the batch has a row, and each new row holds source, title, summary and date of the first of the batch with its URL, and the language detected in them |
| Store.UpsertLinks | app/ingest/store.py:81-161 | pair by pair: an item the batch names is linked to the source's topics and to the catalogued topics its URL argues for, no other link is new, and which links are the source's |
| Store.PruneLeaves | app/ingest/store.py:345-355 | an item outlives a prune if and only if it is no older than the cutoff or somebody bookmarked it, a link if and only if its item does; nothing else changes |
| Store.Database.PruneFeedItems | app/ingest/store.py:328-360 | exactly the items older than the cutoff that nobody bookmarked go, id by id, with their links, and the count is the difference |
| Store.Database.CreateBookmark | app/services/bookmarks.py:33-62 | an unknown item is refused; a repeat keeps the instant of the first save |
| Store.Database.RemoveBookmark | app/services/bookmarks.py:65-77 | an unknown item is refused; removing what is not there changes nothing |
| Ingest.EntryFits | app/ingest/normalise.py:303-324 | what is stored of an entry fits its columns, has a title, no blank summary, and is dated no later than a day after the fetch |
| Ingest.NormaliseEntries | app/ingest/normalise.py:327-346 | the loop keeps the usable entries inside the window, the first of each URL, and its result has distinct URLs |
| Ingest.RefreshSource | app/ingest/service.py:104-148 | a refresh is one atomic upsert of the normalised entries, and the number it records is the table's growth |
| Ingest.RefreshStores | app/ingest/normalise.py:290-346 | every item a refresh adds is the first entry in the window for its URL: its plain title and summary, shortened to 1024 and 2000 characters, its own date unless absent or more than a day ahead, the refreshed source, and the language detected |
| Ingest.StepKeeps | app/ingest/service.py:104-165 | every refresh, prune, save and unsave keeps URLs unique, references intact and rows unrewritten, and reuses no id |
| Ingest.UpsertKeeps | app/ingest/store.py:192-277 | an upsert keeps the tables good, every stored row and every bookmark, and stores exactly the batch's URLs besides those there |
| Ingest.PruneKeeps | app/ingest/store.py:328-355 | what a prune removes was older than the cutoff and bookmarked by nobody, and its URL is free again; the rest stands |
| Ingest.RunKeeps | app/ingest/service.py:104-165 | the same over every run: a stored row keeps its title and publication date for as long as it is there |
| Ingest.SavedStays | app/ingest/store.py:328-355 | a bookmarked item, and the instant of its first save, outlive every run in which its owner does not let it go |
| Ingest.SaveKeeps | app/services/bookmarks.py:33-62 | an item that is saved while it is there is there, unchanged and bookmarked, after every run in which its owner does not let it go |
| Ingest.RunKeepsKeys | app/ingest/service.py:104-165 | over any run every stored URL is its own canonical form |
| Ingest.LeavesTheWindow | app/ingest/service.py:150-165 | a prune at any point of any run takes every item that has left the window and that nobody holds then, and that row never comes back |
| Ingest.ReadmittedIff | app/ingest/normalise.py:290-346 | a refresh stores a URL that is not in the table, pruned before or not, if and only if an entry of it has no date, one still too far ahead, or one inside the window |
| Ingest.PrunedNeverReturns | app/ingest/normalise.py:340-344 | with time moving on, an item that was pruned and that feeds date, each as it likes, before the window of then is never stored again, whatever else runs |
| Retag.NextBatch | app/cli/operations.py:441-452 | a batch is a run of consecutive ids after the last one, at most the batch size, and empty only at the end |
| Retag.RetagItems | app/cli/operations.py:408-489 | alone on the tables, a pass leaves the source's links as they were and the rules' links exactly the wanted pairs the source does not assert; its counts are the real differences; a dry run changes nothing |
| Retag.SecondPassIsIdle | app/cli/operations.py:465-489 | after a pass the counts are the pairs that came and went, and a second pass finds nothing to add, to remove or to change |
| Retag.WantedAre | app/ingest/store.py:124-161 | pair by pair: a link is wanted if and only if the item's URL has a slug that the catalogue lists as the topic |
| Retag.UpsertMoves | app/ingest/store.py:192-277 | what a refresh slipping in can do to the links: source links stay, no link is lost, and every item it brings in arrives with its rule links |
| Retag.ActionKeeps | app/cli/operations.py:428-483 | every statement of the pass and every refresh between them keeps the invariant of the phase the pass is in, and every source link |
| Retag.RunKeeps | app/cli/operations.py:419-423 | over any interleaving of refreshes and passes no source link is deleted or demoted |
| Retag.PassSettles | app/cli/operations.py:409-416 | whatever refreshes did while it ran, a finished pass leaves the rules owning exactly the pairs they argue for over the items there are then, less the source's |
| Retag.SettledPairs | app/cli/operations.py:409-416 | pair by pair: once settled, a rule owns a link if and only if the item's URL argues for it and the source does not own it |
| Retag.PassCanFinish | app/cli/operations.py:428-489 | wherever a pass stands a refresh may come, and by its own statements the pass can still get to its end |
| Retag.RefreshStaysSettled | app/ingest/store.py:255-274 | refreshes keep settled links settled until the ruleset changes |
| Languages.DetectItemLanguages | app/cli/operations.py:492-552 | every item ends with the language detection gives it, or the one it had when detection fails, nothing else of it touched; the three counts are exact; a dry run changes nothing |
| Languages.RedetectedIs | app/cli/operations.py:507-552 | row by row: what detection is asked, what a row becomes, and when it counts as changed or failed |
| Languages.SettledIsRedetected | app/cli/operations.py:503-506 | writing changes collected from rows of an earlier table to a later one: rows in both end as detected, rows that came since are left alone |
| Languages.InterleavedPassSettles | app/cli/operations.py:503-542 | with refreshes, prunes and saves between the batches read and before the writes, every row there when the reading ended was read, every row read and still there ends as detected, and rows that came since are left alone |
| Languages.SecondPassIsIdle | app/cli/operations.py:492-552 | a second pass moves nothing and fails exactly where the first did |
| RateLimit.NeverOverLimit | app/auth/ratelimit.py:26-27 | at any moment the hits granted to a key since its last eviction that lie in the window ending then number at most the limit |
| RateLimit.InWindowCounts | app/auth/ratelimit.py:49-57 | the hits in the window are the accepted ones after its start that no eviction or reset of the key came after |
| RateLimit.SlidingWindowLimiter.Hit | app/auth/ratelimit.py:49-57 | a hit is granted if and only if fewer than the limit of the key's granted hits since its last eviction lie in `(now - window, now]`; tracked keys stay within the bound and the checked key is kept |
| RateLimit.SlidingWindowLimiter.IsLimited | app/auth/ratelimit.py:59-63 | the check answers as a hit would and grants nothing |
| RateLimit.SlidingWindowLimiter.Prune | app/auth/ratelimit.py:69-89 | pruned and evicted queues hold exactly the unbounded log's hits in the window; at most one key is evicted, the least recently active, never the checked one |
| RateLimit.SlidingWindowLimiter.MakeRoom | app/auth/ratelimit.py:77-88 | eviction ends with room, or with the checked key alone |
| RateLimit.DropFront | app/auth/ratelimit.py:73-74 | popping from the front while the head is outside the window leaves exactly the times inside it |
| OAuthState.StateStore.Issue | app/auth/state.py:48-59 | issuing purges what has expired, makes room by dropping a state that expires first exactly when full, and adds the nonce; the token is the signed nonce and expiry |
| OAuthState.StateStore.Consume | app/auth/state.py:61-83 | a token redeems exactly when it is signed, unexpired and its nonce outstanding after the purge, and redeeming takes the nonce out |
| OAuthState.ClaimedIff | app/auth/state.py:63-78 | a nonce and expiry are read off exactly the tokens that are a dot-free nonce, a numeral and the signature of the two |
| OAuthState.IssuedIsClaimed | app/auth/state.py:48-78 | an issued token, read back, claims the nonce and expiry it was issued with |
| OAuthState.SecondsTruncate | app/auth/state.py:48-53 | the expiry counts from the clock reading with its fraction cut off, towards the epoch on either side of it |
| OAuthState.RedeemedAtMostOnce | app/auth/state.py:81-83 | over every run, redemptions of a nonce and its being outstanding together never exceed its issues: with fresh nonces, once |
| OAuthState.NeverOverfull | app/auth/state.py:54-58 | the store never holds more than 4096 states |
| OAuthState.OutstandingWereIssued | app/auth/state.py:48-59 | the outstanding states expiring at or after a second are no more than were issued so |
| OAuthState.UntouchedStays | app/auth/state.py:48-92 | a state neither redeemed nor reset is still outstanding until it expires, unless more than 4096 states expiring no sooner were issued |
| OAuthState.IssuedStateRedeems | app/auth/state.py:61-83 | and then its token redeems: purging and dropping never take a live state first |
| Sessions.SessionStore.PruneSessions | app/auth/sessions.py:90-168 | a sweep deletes exactly the rows its three-valued condition is true of, and counts them |
| Sessions.SessionStore.RevokeSession | app/auth/sessions.py:74-87 | revoking stamps an unrevoked row once and says whether there was one |
| Sessions.DeadIff | app/auth/sessions.py:129-146 | with NULL comparing as unknown, a row is dead exactly if it is unrevoked and expired, or revoked long enough ago |
| Sessions.ResolvesIff | app/auth/sessions.py:55-71 | after any run, sweeps included, a token resolves to the user it was created for exactly if it has not been revoked and has not expired |
| Sessions.SweepsChangeNoAnswer | app/auth/sessions.py:90-146 | erasing every sweep from a run changes no later answer, whatever retention the sweeps were given |
| Sessions.EarlySweep | app/auth/sessions.py:134 | a sweep given a moment ahead of the clock keeps a live session's answer if and only if the session outlives that moment |
| Sessions.SweepLeaves | app/auth/sessions.py:108-134 | what is left are unexpired unrevoked rows and revoked rows within their grace, as they were |
| SourceStatus.BackoffGrows | app/ingest/status.py:304-311 | back-off never shrinks with more failures and is at most 360 minutes |
| SourceStatus.BackoffCoversIntervalIff | app/ingest/status.py:304-311 | back-off is at least the ordinary interval if and only if that interval is at most 360 minutes; the docstring promises it without the condition |
| SourceStatus.WaitsDouble | app/ingest/status.py:298-311 | the wait is the interval, then after failures the interval doubled up to four times, never more than six hours |
| SourceStatus.SourceStatusRegistry.Due | app/ingest/status.py:147-175 | memory answers first, then the row, and a source with neither is due |
| SourceStatus.SourceStatusRegistry.RecordSuccess | app/ingest/status.py:179-201 | a success resets the count and the error, stamps both instants and writes the row through |
| SourceStatus.SourceStatusRegistry.RecordFailure | app/ingest/status.py:203-236 | a failure counts on from memory, or from the row in a cold process, keeps the last success and writes the row through |
| SourceStatus.SourceStatusRegistry.RecordDiscoveredIcon | app/ingest/store.py:288-325 | an absent icon changes nothing; a new one is stored beside whatever the row holds; the answer says whether the row changed |
| SourceStatus.DueByOutcomes | app/ingest/status.py:163-175 | over any run with restarts anywhere and the interval left alone, a source is due by its last attempt and its trailing failures, and stored count and last success are those of the outcomes |
| SourceStatus.RestartsChangeNoAnswer | app/ingest/status.py:17-19 | erasing every restart and every `forget` from a run changes no answer about what is due |
| SourceStatus.RestartAgreesIff | app/ingest/status.py:147-175 | after the interval was changed, a restarted process and the running one agree at every instant if and only if both intervals come to the same wait |
| SourceStatus.FailureWaits | app/ingest/status.py:304-311 | a source that failed is due again exactly when its back-off is over, restart or no restart |
| BoundedCheck.Check.Enter | app/main.py:62-68 | an arriving call starts an attempt and clears the event exactly if none is running |
| BoundedCheck.Check.Finish | app/main.py:77-85 | the worker stores its result, stops running and sets the event in one step |
| BoundedCheck.ActionKeeps | app/main.py:54-85 | every step of callers and worker keeps: at most one worker, running exactly then, the event set exactly between attempts, and what each waiting call relies on |
| BoundedCheck.OneAttemptAtATime | app/main.py:43-47 | in every interleaving at most one attempt is in flight, and all others have reported |
| BoundedCheck.AnswersAreFresh | app/main.py:70-73 | a call that does not time out returns what an attempt reported after the call came in, never the placeholder |
| BoundedCheck.NoLostWakeUp | app/main.py:82-85 | a sleeping call always has an attempt in flight, and that attempt's report wakes it |
| BoundedCheck.CallIsServed | app/main.py:54-85 | whatever went before, a new call can come in and wait, an attempt is then in flight, and with its report the call is answered |
| Kev.IsoReadsBack | app/ingest/kev.py:206-213 | the printed form of every date reads back as that date |
| Kev.IsoIsText | app/ingest/kev.py:171-173 | a date that was read is printed as it was written |
| Kev.SummaryFits | app/ingest/kev.py:149-181 | the summary never exceeds the column, so the truncation at ingest leaves it and the facts at its end as they are |
| PlainText.FlattenedShrinks | app/ingest/normalise.py:150-153 | after the stripper, plain text is no longer than the text it was made from and has no white space at its ends |
| PlainText.FlattenedGlue | app/ingest/normalise.py:150-153 | neat text at the end of a text comes through as it is, one space after the plain text of the rest |
| PlainText.FlattenedAfter | app/ingest/normalise.py:150-153 | a neat word at the start of a text comes through as it is, before the plain text of the rest |
| PlainText.PlainIsFinal | app/ingest/normalise.py:134-153 | plain text never holds anything tag-shaped, no control character and no white space but single spaces inside, and making it plain again changes nothing |
| KevRoundTrip.StoredIsPlain | app/ingest/normalise.py:134-159 | what is stored of a printed summary is the plain text of its description and then its facts, nothing cut off |
| KevRoundTrip.TitleReadsBack | app/services/public_snapshot.py:174-182 | a stored title, plain text and cut to its column, gives identifier and name back exactly when the name is not stripped away whole and the cut does not reach the identifier |
| KevRoundTrip.DueReads | app/services/public_snapshot.py:182-191 | a deadline sentence after any text, or alone, is found, read and cut off |
| KevRoundTrip.RansomwareReads | app/services/public_snapshot.py:192-197 | the ransomware sentence after any text, or alone, is found and cut off, and never taken for a deadline |
| KevRoundTrip.FactsReadBack | app/services/public_snapshot.py:174-205 | from the stored summary, deadline and flag come back whenever present; text, deadline and flag are the entry's if and only if the plain text of the description does not end in the sentence of a fact the entry lacks |
| KevRoundTrip.EntryReadsBack | app/services/public_snapshot.py:174-205 | the same of whole entries, printed, stored and published: read exactly when the stored title holds the identifier, with the name, description and facts that come back |
| KevRoundTrip.PlainEntryReadsBack | app/services/public_snapshot.py:174-205 | where the stripper finds nothing to strip, deadline and flag come back exact if and only if the description is cut or, closed and in plain text, does not end in such a sentence |
| KevRoundTrip.EntryIff | app/ingest/kev.py:130-147 | an entry is printed if and only if its identifier, white space around it aside, is `CVE-`, four digits, a dash and four digits or more |
| KevRoundTrip.PublishedAsWritten | app/services/public_snapshot.py:174-205 | in the entry's own words: the identifier, the deadline as its member writes it if that is a date, the flag if its member reads `known` in any letter case, and the description closed and cleaned |
| KevRoundTrip.MisleadsIff | app/ingest/kev.py:170-179 | the plain text of a printed description misleads if and only if the description was not shortened and its closed form does; white space inside the sentence does not hide it |
| KevRoundTrip.QuotingIsMisread | app/services/public_snapshot.py:192-197 | a description that quotes the ransomware sentence after a tab, short of its full stop, is stored and published as a ransomware entry |
| PublicSnapshot.Clean | app/services/public_snapshot.py:106-127 | the character loop computes the words between white space, hidden characters dropped, joined by single spaces and shortened to the limit |
| PublicSnapshot.CollapsingKeepsVisible | app/services/public_snapshot.py:106-127 | cleaning loses, moves and makes up none of the characters that show |
| PublicSnapshot.CleaningIs | app/services/public_snapshot.py:106-127 | a hidden character might as well not be there, any white space might be any other and any amount of it, and what is too long is the front of it and an ellipsis |
| PublicSnapshot.CleaningIsFinal | app/services/public_snapshot.py:106-127 | cleaned text is within its limit, shows nothing hidden and no white space but single inner spaces, and cleaning it again changes nothing |
| PublicSnapshot.TidyIsKept | app/services/public_snapshot.py:106-127 | text that is fit already and short enough is left as it is |

## Left out

- Sockets, TLS, DNS, redirects and HTTP, and the parsers of feeds and JSON: foreign code and I/O.
- What the URL library does before the application sees a URL (IDNA, dot segments, quoting, its own refusal of some hosts): taken as already applied; whether it takes a host back is the parameter `acceptsHost`.
- IPv6: kept as the canonical text the address library prints; which IPv6 addresses are public is a parameter.
- `check_static` outside the host: URL length, white space, scheme, credentials, port and endpoint checks, each one branch.
- Integers: `int()` is modelled over ASCII digits, signs, underscores and white space; other decimal digits and the interpreter's limit on the length of numerals are not.
- Lower-casing: ASCII letters only. It differs from Python's on text outside ASCII, which reaches it only in tracking keys and the ransomware marker of a catalogue entry.
- Character classes (white space, controls, format characters): tables taken over from Python; the results hold for the tables as the model has them.
- Cursors with characters outside ASCII are refused by the model; the decoder refuses them with the same error.
- Word and tag mutes: they enter the feed as sets of terms; their case folding and the catalogue check on tags are not modelled, nor are the other preference fields.
- Full-text search and mute matching: `TextMatch` is a parameter, since the two database engines match differently.
- `topics_for_url`: its section table is the parameter `rules`; only the host rule it shares with URL mutes is modelled.
- SQL dialect branches, transactions that fail, and a prune that deletes an item between a re-tag's reading and its writing (a foreign-key failure).
- Ties: where Python's `min` takes the first of several equal keys, in the limiter and in the state store, the model allows any of them.
- Threads: the locks of the limiter, the state store and the status registry are held for whole calls, so those are modelled call by call; `record_failure` reading its count before it takes the lock again is taken as one step.
- Status rows that cannot be written: persistence is best-effort in the source; the model has it succeed, which is what the restart results are about.
- Registries without a database, and the item counts and last-failure instant that a restart forgets.
- `_published` and the sort and cap of `parse_kev_catalogue`: one comparison, and a sort whose result only decides which entries are kept.
- Stripping and unescaping markup: foreign code, the parameter `markup`. What the application does to the text after it (tags, control characters, white space, the cut) is modelled.
- KevRoundTrip.EntryReadsBack: says what comes back when the stripper leaves the identifier and the fact sentences and does not lengthen the description; a description whose markup swallows the text after it (an unclosed tag, say) is not covered.
- Row ids on SQLite: the key there is not AUTOINCREMENT (app/db/models.py:482), so the highest id can come back after its row is pruned; `Ingest.StepKeeps`, `Retag`, `Languages` and `Traversal.FeedOverMovingStore` count on ids that are not reused, as on PostgreSQL.
- React: that a component's effects have run before it renders again is taken as given (`PagedResource.Enabled`), and that every queued update is applied in order.
- Building and writing the snapshot documents, routes, cookies, CSRF, API tokens, settings, logging and the command line: plumbing.
- Image and icon URLs: stored as they come.
- Rendering, storage, keyboard handling and the rest of the web client.
- `patchEntry` callbacks that change an entry's id: the model's callbacks change the body only, as the client's do.
- PagedResource.ActionKeeps: assumes that a `loadMore` that starts a request was made under the key in force; `PagedResource.PromptIff` says that this is exactly what is needed and `PagedResource.StaleHandlerMixes` what happens without it.
- PagedResource.EntriesBelong: assumes the same, and that a page answers the request it was fetched for with distinct ids.
- Client.ClientShowsPrefix: supposes that the feed does not change, that the reader stays with one key, and that no entry is patched or removed.
- Feed.BookmarkTraversal: a bookmark removed and made again between pages moves up and is not owed to that traversal; `SavesMoveForward` says it never moves down, which holds when the clock does not go back.
- Traversal.FeedOverMovingStore: the stored rows met by a request are any listing of rows of the store, in any order; read marks, mutes and filters may change freely between requests.
