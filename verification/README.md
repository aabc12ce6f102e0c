# Verified model of the torrent catalogue

The program is a small catalogue of torrents published as Nostr events (kind 2003, NIP-35). It follows a
list of accounts, copies their events from relays into an SQLite database (a batch synchroniser and a live
subscription, side by side), keeps a full-text index of the catalogue, asks trackers for seeder counts over
BEP 15, and serves a rate-limited search page. This project is a Dafny model of that behaviour, with proofs.

| file | what it models |
|---|---|
| `Fts.dfy` | the external-content full-text index as real postings (token -> set of rowid, column, position), updated by the triggers only |
| `FtsQuery.dfy` | the printer of full-text queries, and a parser for its output |
| `Catalog.dfy` | the catalogue as a value: what each store operation means |
| `Database.dfy` | the store: tables, unique index, cascades, triggers and transaction as mutable state; every method refines its operation of `Catalog` |
| `Server.dfy` | the paging of the search page |
| `RateLimit.dfy` | the token bucket and its garbage collector |
| `Protocol.dfy` | batch synchronisers, live consumers, moderator and scraper as one state machine, interleaved at single store calls, every write of the synchronisers allowed to fail |
| `Safety.dfy`, `Moderation.dfy`, `NoGap.dfy`, `LiveGap.dfy`, `Confluence.dfy` | properties of all runs of that machine |
| `Effects.dfy` | what ingestion leaves in a table: the last event of each id, the latest date, the newest profile |
| `Ingest.dfy` | the synchronisers' code over the store, shown to perform runs of the machine |
| `Live.dfy` | the live subscription manager and its change key |
| `Client.dfy` | what the Nostr client keeps of the relays' deliveries |
| `Magnet.dfy`, `Nip35.dfy` | magnet links and the parsing of events |
| `ScrapeCodec.dfy`, `ScrapeBatch.dfy`, `ScrapeRun.dfy` | BEP 15 packets, one pass of the scraper with the writes of others in between, and that pass as a run of the machine |
| `Wrappers.dfy` | Option and Result |

Code that changes state is a class or a method with loops, proved against functions on values; the properties
are lemmas about those functions. The index is never a copy of the table: what a delete removes is the tokens
of the text it is handed, and agreement with the table is an invariant that has to be proved.

## What does not hold as one might expect

Each of these is stated exactly, as an equivalence or with a run that shows it.

- The index stays right after a delete if and only if, column by column, the old tokens are a prefix of the
  tokens of the text handed to the delete (`Fts.DeleteNeedsOldText`). The triggers hand over the old columns,
  so it does.
- The garbage collector of the limiter is invisible if and only if the window is at most ten minutes and one
  nanosecond (`RateLimit.GcInvisibleExactly`).
- A moderated event is brought back by some later run if and only if it is not dated before everything a relay
  can still be asked for (`Moderation.GuardIsExact`). In particular an event dated exactly at the cursor comes
  back.
- A live consumer can move the cursor past history that was never fetched. Opening a subscription is safe, for
  every orderly history before it and every orderly run after it, if and only if the cursor of each of its
  accounts is set and at most the overlap of two minutes old (`LiveGap.OpeningIsSafeExactly`).
- "There is a next page" is wrong exactly when the last page is full (`Server.HasMoreIsWrongWhenFull`).
- `FetchTorrents` (internal/nostr/client.go:54-58) says it ignores events with invalid signatures. It marks an
  id as seen before it checks the signature, so an id is returned if and only if the *first* event delivered
  under it is valid (`Client.FetchedExactly`), and a forged event can hide a good one
  (`Client.HiddenByInvalid`). Invalid events are ignored if and only if no id that arrives invalid first has a
  first valid event that is a torrent (`Client.IgnoredExactly`). This presumes that the relay pool hands on
  events it has not verified itself. The model follows the code.
- docs/publier-nip35.md:89-90 invites several `tracker` tags. An entry carries all the good ones if and only if
  there is none, or the first tag of that name is good and the others say the same (`Nip35.TrackersExactly`);
  a second tracker is lost, and a good one behind a bad one (`Nip35.TrackersLost`).
- The change key of the live manager tells relays apart only up to the pieces between commas, and the command
  line accepts commas in a URL (internal/cli/relay.go:72-81). A reload is wrongly skipped if and only if the
  relays changed but not their pieces (`Live.WronglySkipped`); the configuration in force is always the one last
  read if and only if no two readings that may occur are confused like that (`Live.NeverStaleExactly`); two
  readings that are (`Live.StaleRun`). URLs without commas never are (`Live.KeySound`, `Live.NeverStale`).
- The stored size is the sum of the file sizes if and only if that sum fits 64 bits (`Safety.Integrity`,
  `Nip35.SizeIsTotal`); two files whose sum does not (`Nip35.SizeWraps`).

## Model

| member | source | states |
|---|---|---|
| Fts.FtsIndex.InsertDoc | internal/store/store.go:112-115 | the insert trigger adds exactly the postings of the new row's tokens in its three columns |
| Fts.FtsIndex.DeleteDoc | internal/store/store.go:117-120 | a delete removes exactly the postings of the tokens of the text it is handed, whatever the row held |
| Fts.AgreesAfterInsert | internal/store/store.go:112-115 | indexing a row under a rowid not in use, a freed one included, keeps index and table in agreement |
| Fts.AgreesAfterDelete | internal/store/store.go:117-120 | a delete handed the old columns leaves the index of the remaining rows |
| Fts.DeleteNeedsOldText | internal/store/store.go:117-127 | the index is right after a delete if and only if each column's old tokens are a prefix of the tokens of the text handed over |
| Fts.AgreementIsRebuild | internal/store/store.go:107-127 | an index agrees with the table exactly when it equals the index rebuilt from scratch |
| Fts.FtsIndex.Match | internal/store/torrents.go:200-210 | a query answered from postings alone returns exactly the rows where every phrase stands in some column |
| Fts.StartHitsExact | internal/store/torrents.go:200-210 | intersecting shifted posting lists finds exactly the positions at which a phrase, its last token a prefix, starts |
| FtsQuery.Build | internal/store/torrents.go:235-262 | the loop over runes prints a query that reads back as one quoted prefix phrase per word of the input; without words it is the single empty phrase |
| FtsQuery.ParsePrint | internal/store/torrents.go:238-246 | printing any list of words and parsing the result gives back those words, in order |
| FtsQuery.WordsAreWords | internal/store/torrents.go:247-257 | no word is empty or holds a quote or a separator |
| FtsQuery.FieldsSplit | internal/store/torrents.go:247-257 | a separator anywhere in the input cuts it: the words of both sides, nothing else |
| FtsQuery.FieldsOne | internal/store/torrents.go:247-257 | text without separators is one field |
| FtsQuery.WordsSplit | internal/store/torrents.go:247-257 | a space, tab or newline anywhere, also inside quotes, cuts the words of the input in two |
| FtsQuery.WordsOne | internal/store/torrents.go:247-257 | input without any of them is one word, its quotes removed, or none if nothing is left |
| FtsQuery.WordsSpellTheInput | internal/store/torrents.go:247-257 | the words in order spell the input without its quotes and separators: nothing is lost, added or moved |
| Database.Store.constructor | internal/store/store.go:22-38 | a new database is empty and consistent |
| Database.Store.InsertRow | internal/store/store.go:112-115 | inserting a row under any free rowid keeps keys, children and index consistent |
| Database.Store.UpdateRow | internal/store/store.go:122-127 | the update trigger's delete and insert keep the index that of the changed table |
| Database.Store.DeleteRow | internal/store/store.go:89-120 | deleting a row takes its files and statistics with it and its postings out of the index, and nothing else |
| Database.Store.UpsertTorrent | internal/store/torrents.go:52-98 | on success the entry, files included, is the given one (author and creation date of an existing row stay); an error at any statement up to the commit leaves tables and index as they were |
| Catalog.PutExactly | internal/store/torrents.go:65-82 | column by column: an upsert makes the entry the given one but for the author of an existing row, and changes no other entry, statistics, account or profile |
| Database.Store.ReplaceFiles | internal/store/torrents.go:87-95 | the file list becomes exactly the given one, in order, and no other torrent's files change |
| Database.WithoutFiles | internal/store/torrents.go:87-95 | clearing one torrent's files leaves every other torrent's list as it was, in order |
| Database.Store.GetTorrent | internal/store/torrents.go:101-130 | the entry of that id with its files, or none |
| Database.Store.DeleteTorrent | internal/store/torrents.go:133-143 | removes that entry with its files and statistics; reports whether it was there |
| Catalog.DropExactly | internal/store/torrents.go:133-143 | entry and statistics of exactly the given ids are gone, everything else is as it was |
| Database.Store.UpdateTorrentFields | internal/store/torrents.go:146-157 | changes title and category only (the magnet link keeps the old title), and the index with them |
| Catalog.EditExactly | internal/store/torrents.go:146-157 | the title becomes the title given, the category the category, every other column and every other entry stays |
| Database.Store.CountByPubkey | internal/store/torrents.go:160-167 | the number of entries of the author |
| Database.Store.DeleteByPubkey | internal/store/torrents.go:171-178 | removes exactly the author's entries, row by row through trigger and cascades, and counts them |
| Catalog.IdsByExactly | internal/store/torrents.go:171-178 | the author's entries are exactly the catalogued ones whose author it is |
| Database.IndexIsRebuilt | internal/store/store.go:107-127 | in every valid store the postings kept by the triggers equal those rebuilt from `torrents` |
| Database.Store.Search | internal/store/torrents.go:182-230 | the page holds results of the query only, each once, dates never rising, shown with the columns of their own torrent, the name of its author and its counters; it is as long as the limit, 40 if that is not between 1 and 100, allows; nothing found and left behind a page is newer than anything on it; found is what holds every word of the query as a phrase, its last token a prefix, in title, description or category; and the page read off the index is the page of a scan of the table |
| Database.IntendedIsWanted | internal/store/torrents.go:235-262 | a row matches the printed query exactly if each word that yields a token stands in one of its columns as a phrase whose last token is a prefix, and some word yields one |
| Database.Store.OrderByDate | internal/store/torrents.go:197-198 | the hits, each once and no other, dates never rising, ties by rowid |
| Database.ResultsMean | internal/store/torrents.go:182-230 | all pages of a query are stretches of one list: every result once, dates never rising, as they are shown |
| Database.SearchMeans | internal/store/torrents.go:182-230 | what a page of the scan is, said without the scan: results, dates, and what is left out |
| Database.OrderUnique | internal/store/torrents.go:209-210 | that order is the only one, so pages of one state never overlap |
| Database.Store.AddFollowed | internal/store/followed.go:20-30 | a new account starts at cursor zero; an account already followed is renamed and enabled and keeps its cursor |
| Catalog.FollowExactly | internal/store/followed.go:20-30 | after following, the account has the alias given and is enabled, also if it was disabled; a known one keeps its cursor and date, a new one starts at zero; other accounts stay |
| Database.Store.ListFollowed | internal/store/followed.go:47-65 | every followed account once with its own columns, creation dates never falling |
| Database.Store.RemoveFollowed | internal/store/followed.go:34-44 | forgets the account and its cursor; reports whether it was followed |
| Catalog.UnfollowExactly | internal/store/followed.go:34-44 | that account is gone, every other is as it was |
| Database.Store.UpdateLastSynced | internal/store/followed.go:88-94 | the cursor is a maximum register; unknown accounts are ignored |
| Catalog.RaiseExactly | internal/store/followed.go:88-94 | the cursor is the date given if that is larger, else what it was; nothing else changes and no account is created |
| Database.Store.UpsertProfile | internal/store/profiles.go:21-37 | a profile is replaced unless the stored one is strictly newer |
| Catalog.ProfileExactly | internal/store/profiles.go:21-37 | the row is the stored one if that is strictly newer, else the one given; other rows stay |
| Database.Store.UpsertTorrentStats | internal/store/stats.go:17-28 | counters overwrite the torrent's row; for a torrent deleted meanwhile the foreign key refuses them and nothing changes |
| Catalog.StatsStored | internal/store/stats.go:17-28 | the counters of a catalogued torrent are those given, those of any other stay; nothing is stored for a torrent that is not catalogued |
| Database.Store.TorrentsDueForScrape | internal/store/stats.go:54-75 | every torrent with a tracker and no counters, or counters older than asked, once, with its own infohash and tracker, and no other |
| Database.DueMeans | internal/store/stats.go:54-75 | column by column, what is collected: a torrent never scraped is due, as is one scraped before the date given |
| Server.HandleSearch | internal/web/server.go:115-151 | a missing, malformed or negative page is page zero; the results are that page of the search, at most 30, labelled, and 30 of them announce another page |
| Server.LabelExactly | internal/web/server.go:129-136 | a result is labelled with its author's name, or with the first ten and last six characters of the key, or all of a key of at most 18 |
| Server.VisitsEverythingOnce | internal/web/server.go:115-151 | on an unchanged catalogue, following the next page while there is one shows every match once, in order, and stops |
| Server.HasMoreIsWrongWhenFull | internal/web/server.go:145 | a full page announces an empty one exactly when it is the last |
| Server.SearchWalk | internal/web/server.go:115-151 | the walk over the pages of any query of any valid store shows exactly the scan of the table in its order |
| RateLimit.Bucket.Take | internal/web/ratelimit.go:30-53 | what one request leaves of a bucket, and the answer |
| RateLimit.Limiter.Allow | internal/web/ratelimit.go:30-53 | an unknown client, or one whose last refill is a whole period ago, is let in and has the full rate less one left; anyone else is let in exactly if something is left, and has one less; no other bucket changes |
| RateLimit.Limiter.Gc | internal/web/ratelimit.go:55-65 | a sweep forgets only buckets unused for more than ten minutes (600 000 000 000 ns), all that were so when it began, and changes none |
| RateLimit.RefillIsReset | internal/web/ratelimit.go:40-47 | every refill fills the bucket: the limiter is a counter of requests in a window |
| RateLimit.RequestExactly | internal/web/ratelimit.go:30-53 | what one request does, said without the refill arithmetic |
| RateLimit.LimiterShowsWindows | internal/web/ratelimit.go:30-65 | over every run of requests and sweeps the buckets show the window counters that never forget |
| RateLimit.GcInvisible | internal/web/ratelimit.go:55-65 | any placement of sweeps gives the answers of the limiter that never forgets |
| RateLimit.GcInvisibleExactly | internal/web/ratelimit.go:55-65 | it does so for every run if and only if the window is at most ten minutes and one nanosecond |
| RateLimit.GcVisible | internal/web/ratelimit.go:55-65 | for every longer window, a run in which a sweep admits a request that would be denied |
| RateLimit.AdmissionBound | internal/web/ratelimit.go:30-53 | for windows of at most ten minutes and one nanosecond, and for any window without sweeps: at most rate * (floor(L/every) + 2) admissions of one address in any interval of length L, and rate * (floor(L/every) + 1) from its first request |
| RateLimit.DeniedExactly | internal/web/ratelimit.go:30-53 | a request is denied exactly when `rate` requests were admitted since a window start less than `every` ago |
| RateLimit.WindowCounts | internal/web/ratelimit.go:30-53 | a window's count is the number of requests admitted since its start |
| RateLimit.OthersNeverMatter | internal/web/ratelimit.go:30-65 | the answer to an address depends only on its own requests |
| Safety.InvRun | internal/ingest/ingest.go:18-47 | every interleaving, with any store failures, keeps: a cursor is zero or the date of a written event of its account, what is in flight was published, a size is the sum of its files in 64-bit arithmetic, statistics have their torrent |
| Safety.CursorIsAnEvent | internal/ingest/ingest.go:25-38 | in every reachable state a cursor is zero or the date of an event of that account upserted earlier |
| Safety.CursorNeverDecreases | internal/store/followed.go:83-94 | over any run through which the account stays followed its cursor never decreases |
| Safety.AdditiveOnly | internal/store/persistence_test.go:8-81 | no run without a moderator's deletion loses an entry, unfollowing and re-synchronising included |
| Safety.Integrity | internal/store/store.go:89-105 | in every reachable state statistics belong to a catalogued torrent, and a size is the sum of the torrent's files if and only if that sum fits 64 bits |
| Safety.WriteSource | internal/ingest/live.go:89-108 | synchronisers write published events only, and raise a cursor only to the date of a written event of that account |
| Moderation.ModerationSurvives | internal/ingest/ingest.go:23-38 | an edit or deletion of an event dated before everything a relay can still be asked for is never undone by any later run |
| Moderation.GuardedRun | internal/ingest/ingest.go:23-38 | in such a run the event is not written again at any step |
| Moderation.GuardIsExact | internal/nostr/client.go:94-95 | conversely, if some cursor, running sync, open or opening subscription reaches the event, a later run does write it again |
| Moderation.UndoneByAccount | internal/ingest/ingest.go:25-38 | an event not dated before the account's cursor (or an account at cursor zero) is brought back by the next sync, one within the overlap by the next subscription |
| NoGap.NoGap | internal/ingest/ingest.go:23-38 | over complete answers and in-order subscriptions that reach back to the cursor they move, nothing published before a cursor is missing, with batch synchronisers and live consumers interleaved |
| NoGap.CataloguedAfterSync | internal/ingest/ingest.go:23-38 | once a sync has written its last event, all its account had published when the relays answered is catalogued, then and in every later state of the run |
| NoGap.GaplessStep | internal/ingest/ingest.go:23-38 | each step of such a run, new events, other syncs and live deliveries included, keeps that guarantee |
| NoGap.FinishedIsCovered | internal/ingest/ingest.go:34-38 | the cursor a finished sync moves to has everything before it catalogued |
| LiveGap.LiveAdvanceExactly | internal/ingest/live.go:92-99 | moving the cursor to a live event loses the guarantee exactly if something dated from the old cursor (from the beginning, if it is zero) up to the start of the subscription is missing |
| LiveGap.NoGapWithLive | internal/nostr/client.go:94-95 | if every subscription is opened on accounts whose cursor is set and at most two minutes old, no mixed run has a gap before a cursor |
| LiveGap.SafeIsGuarded | internal/nostr/client.go:94-95 | the guard checked at the opening holds at every later live event, since cursors do not decrease |
| LiveGap.OpeningIsSafeExactly | internal/nostr/client.go:94-95 | for every clock and all cursors: opening a subscription on the followed accounts loses nothing, after any orderly gapless history and in any orderly run that opens no other, if and only if every cursor is set and at most two minutes old |
| LiveGap.StaleLoses | internal/ingest/live.go:92-99 | where one cursor is not, a history from an empty database that has left no gap, and a run after the opening that ends with a missing event before a cursor |
| Confluence.Confluent | internal/ingest/live.go:89-108 | two runs from one database that received the same events, in any order, with any duplication and any split between batch and live deliveries, end with the same torrents and files, cursors and profiles |
| Confluence.RunMeans | internal/ingest/ingest.go:18-47 | a settled run leaves exactly what its set of received events means: each event under its id, each cursor at the newest date, each account's newest profile |
| Confluence.MeaningIsUnique | internal/store/profiles.go:21-37 | that meaning determines torrents, cursors and profiles |
| Confluence.TorrentsStep | internal/store/torrents.go:65-82 | every step keeps: what is written is merged under its id, what is received is written or still on its way |
| Confluence.CursorsStep | internal/store/followed.go:88-94 | every step keeps: cursors are maxima of written dates, and a written date is reached or still on its way |
| Confluence.ProfilesStep | internal/nostr/client.go:163-172 | every step keeps: a received profile is beaten by the stored one or by one still on its way |
| Protocol.NewestIsNewest | internal/nostr/client.go:163-172 | of one author's answer exactly one profile is kept, and none is newer |
| Ingest.SyncUser | internal/ingest/ingest.go:18-47 | the upserts go through up to the first event at which the store fails: under each id the last of those events with the author the row had, every other row as it was; only if all go through, the account's cursor becomes the latest of itself and the dates, given one later than where the sync began, and no other account changes; only if that works, too, the newest profile of the answer is stored, unless the stored one is newer; the count is the number of events if all were written, else zero; without failures nothing fails |
| Ingest.SyncedMeans | internal/ingest/ingest.go:18-47 | what the call leaves, table by table, for a store that fails at any statement of any event, at the cursor or at the profile |
| Effects.LastWinsIsExact | internal/ingest/ingest.go:26-36 | the last event under each id, with the author of the row or of the first event, leaves one possible table |
| Ingest.SyncUserIsRun | internal/ingest/ingest.go:18-47 | what `SyncUser` does to the catalogue is a run of its own steps in the state machine, from its snapshot to its end, in which a step fails exactly where the store does |
| Ingest.SyncUserIsTheRun | internal/ingest/ingest.go:18-47 | every run of the batch's own steps to its end leaves that catalogue: a batch that fails, skips or repeats anything without a failure of the store is no run |
| Ingest.SyncAll | internal/ingest/ingest.go:52-79 | fails, changing nothing, if a list cannot be read or there is no relay; else the accounts have their turns in the order of the list: an enabled one is synchronised, as above, from the cursor listed at the start, a disabled one skipped, a failing one does not stop the others, and the total adds up what the succeeding ones received |
| Ingest.SyncedInTurn | internal/ingest/ingest.go:62-77 | the databases between the turns of the accounts, each turn what one synchronisation leaves, and the total their sum |
| Ingest.SyncAllIsRun | internal/ingest/ingest.go:52-79 | the whole pass is a run of the state machine: first the cursor snapshots and nothing else, then the accounts, while exactly the given events go on being published; in the end no batch is left open |
| Ingest.ConsumeLive | internal/ingest/live.go:89-108 | the catalogue after a sequence of live events with a failure anywhere: under each id the last torrent whose upsert went through with the author the row had; each cursor at the latest of itself and the dates of its account's torrents of which both upsert and cursor update went through; of each author the newest profile; nothing else changed |
| Ingest.ConsumedMeans | internal/ingest/live.go:89-108 | what the consumer leaves, table by table, whatever fails on the way |
| Effects.LatestIsExact | internal/store/profiles.go:21-37 | of each author the newest profile, the last of equals, unless the stored one is newer: one possible table |
| Ingest.ConsumeIsRun | internal/ingest/live.go:89-108 | consuming live events is a run of the consumer's steps, each failing only as an event it holds does, that leaves it idle |
| Ingest.RunsIsLegal | internal/ingest/ingest.go:18-47 | such runs are legal runs of the machine, so every property of all runs holds of them |
| Live.Manager.Reload | internal/ingest/live.go:36-73 | when the key is new, a subscription is open exactly if some account is enabled and there is a relay, and it is one and carries exactly the enabled accounts and those relays, with multiplicities; a failed read or an unchanged key changes nothing |
| Live.EnabledExactly | internal/ingest/live.go:48-53 | an account is subscribed to if and only if it is listed as enabled, and as often |
| Live.SeenExactly | internal/ingest/live.go:48-56 | what a reading amounts to: exactly its relays and its enabled accounts, with multiplicities, sorted |
| Live.ActiveExactly | internal/ingest/live.go:66-72 | a subscription is opened if and only if there is a relay and some account is enabled |
| Live.Manager.Stop | internal/ingest/live.go:30-34 | stopping leaves no open subscription |
| Live.KeyExactly | internal/ingest/live.go:48-60 | for non-empty URLs and 64-hex accounts two keys are equal if and only if the accounts are the same multiset and the sorted relays fall into the same comma-separated pieces |
| Live.WronglySkipped | internal/ingest/live.go:56-60 | a reload leaves a configuration that was not read exactly when the relays changed but not their pieces |
| Live.StaleRun | internal/ingest/live.go:56-60 | one URL naming two relays, then the two relays: the first stays subscribed |
| Live.StalePair | internal/ingest/live.go:56-60 | the same for every pair of URLs |
| Live.KeyNotEmpty | internal/ingest/live.go:56-60 | the first reload is never skipped |
| Live.NeverStaleExactly | internal/ingest/live.go:36-73 | over all runs of reloads, failed ones included, drawn from a set of readings, the configuration in force is the one last read if and only if no two of them are confused by their commas |
| Live.StaleUpToPieces | internal/ingest/live.go:36-73 | in any run the configuration in force was read in it, and the one last read has the same pieces and accounts |
| Live.ReloadAll | internal/ingest/live.go:75-86 | a manager that goes through a sequence of reloads is valid and holds the configuration in force after them |
| Live.SortCanonical | internal/ingest/live.go:54-55 | sorting makes row order irrelevant, and nothing else |
| Client.FetchTorrents | internal/nostr/client.go:32-68 | the loop over deliveries returns the first arrival of each id that is validly signed and parses |
| Client.FetchedExactly | internal/nostr/client.go:46-66 | an id is returned if and only if its first arrival is valid and a torrent; at most once, and as that event's entry |
| Client.HiddenByInvalid | internal/nostr/client.go:52-58 | a badly signed event delivered first leaves nothing of a good event's id; delivered second it changes nothing |
| Client.IgnoredExactly | internal/nostr/client.go:46-66 | the answer is the one without the badly signed events if and only if no id that arrives invalid first has a first valid event that is a torrent |
| Client.EntryIsWellSized | internal/nostr/nip35.go:60-69 | a parsed entry has the size the state machine takes published events to have |
| Client.AnswerMatches | internal/ingest/ingest.go:23-40 | what the client makes of deliveries that match the filter is an answer the state machine admits |
| Client.FetchProfiles | internal/nostr/client.go:153-190 | exactly the profiles of events that are valid, the newest of their author, the first to arrive of equally new ones, and readable, each dated as its event and holding the four texts of its content; one for each author |
| Client.LatestIsNewest | internal/nostr/client.go:163-172 | the event kept per author is the newest valid one, the first of equals |
| Client.LatestIsProtocols | internal/nostr/client.go:163-172 | the state machine's choice among the readable profiles is the client's, unless the newest event cannot be read, in which case the client keeps none |
| Magnet.MagnetRoundTrip | internal/nostr/nip35.go:115-126 | the link starts with `magnet:?`; cutting its query at `&` and `=` and percent-decoding gives back `xt`, which is `urn:btih:` and the upper-cased infohash, `dn`, the title, and `tr`, the tracker, if any, for all byte strings |
| Magnet.NamesArePercentEncoded | internal/nostr/nip35.go:118-125 | replacing every `+` of the form-encoded query by `%20` yields the percent-encoding of each name, and touches no literal plus sign |
| Magnet.ReplacedIsPercent | internal/nostr/nip35.go:122-125 | form-encoding with `+` replaced equals percent-encoding per sections 2.1 and 2.3 of RFC 3986 |
| Magnet.OutputIsSafe | internal/nostr/nip35.go:115-126 | only letters, digits, `-`, `.`, `_` and `~` come out bare, everything else as triplets, and text of these alone is left as it is |
| Magnet.UpperExactly | internal/nostr/nip35.go:115-126 | the infohash in the link has capital digits of the same values |
| Magnet.DecodesEncoded | internal/nostr/nip35.go:115-126 | percent-decoding inverts percent-encoding on all byte strings |
| Nip35.ParseTorrent | internal/nostr/nip35.go:35-87 | the title is the first `title` tag trimmed, the infohash the first `x` tag trimmed and lower-cased; an event without a title, then one whose infohash is not 40 hexadecimal digits is refused; any other gives the entry with those, and with the id, author, text and date of the event |
| Nip35.TitleExactly | internal/nostr/nip35.go:42-47 | the first `title` tag, trimmed, and nothing without one |
| Nip35.InfohashExactly | internal/nostr/nip35.go:49-54 | the first `x` tag, trimmed and lower-cased; accepted if and only if that is 40 digits or letters a to f |
| Nip35.FilesExactly | internal/nostr/nip35.go:60-69 | each `file` tag gives one file, in order, with its size, or 0 if that is missing, malformed or negative; no other tag does |
| Nip35.CategoriesExactly | internal/nostr/nip35.go:71-77 | each `t` tag gives its trimmed value, in order, unless that is empty; no other tag does |
| Nip35.RefsExactly | internal/nostr/nip35.go:79-81 | each `i` tag gives its value, in order; no other tag does |
| Nip35.EntryFields | internal/nostr/nip35.go:35-87 | which part of the event each column comes from; the category is the values joined, the link that of the entry's own infohash, title and tracker |
| Nip35.JoinedExactly | internal/nostr/nip35.go:77 | with a comma and a space between two of them |
| Nip35.ParsesDecimals | internal/nostr/nip35.go:60-69 | sizes are read in decimal as long as they fit 64 bits |
| Nip35.ParsesNothingElse | internal/nostr/nip35.go:60-69 | anything but digits after an optional sign is no size |
| Nip35.CollectFiles | internal/nostr/nip35.go:60-69 | the file list in tag order and its total in 64-bit arithmetic |
| Nip35.FileOf | internal/nostr/nip35.go:60-69 | an absent, malformed or negative size counts as zero, so a size is a non-negative 64-bit integer |
| Nip35.SizeIsTotal | internal/nostr/nip35.go:60-69 | the entry's size is the sum of its files if and only if that sum fits 64 bits |
| Catalog.TotalConcat | internal/nostr/nip35.go:60-69 | sizes add up over any cut of the list |
| Catalog.TotalOne | internal/nostr/nip35.go:60-69 | one file adds its own size, none nothing |
| Catalog.WrapExactly | internal/nostr/nip35.go:60-69 | a wrapped number fits 64 bits and differs by a multiple of 2 to the 64th |
| Nip35.SizeWraps | internal/nostr/nip35.go:60-69 | a file of 9223372036854775807 bytes and one of 1 byte, whose size comes out negative |
| Nip35.EntryMagnet | internal/nostr/nip35.go:84 | the magnet link of a parsed entry decodes to its infohash, title and tracker |
| Nip35.TrimSpaceTrims | internal/nostr/nip35.go:42-54 | trimming leaves no white space, ASCII or not, at either end |
| Nip35.TrackersExactly | internal/nostr/nip35.go:56-58 | the entry carries every accepted tracker of the event if and only if there is none, or the first tracker tag is accepted and the others agree with it |
| Nip35.TrackersLost | internal/nostr/nip35.go:56-58 | of two good trackers the second is lost, and a good one behind a bad one |
| Nip35.TrackersLostInstance | internal/nostr/nip35.go:56-58 | two such events |
| ScrapeCodec.Copy | internal/scrape/scrape.go:110-121 | writing a slice of the packet leaves every other byte as it was |
| ScrapeCodec.BuildConnect | internal/scrape/scrape.go:77-105 | the connect request, byte for byte: the magic 00 00 04 17 27 10 19 80, action 0, the transaction |
| ScrapeCodec.BigEndian | internal/scrape/scrape.go:77-105 | a 32-bit integer is written most significant byte first |
| ScrapeCodec.HighFirst | internal/scrape/scrape.go:77-105 | a 64-bit integer is written most significant half first |
| ScrapeCodec.ReadConnect | internal/scrape/scrape.go:77-105 | the reply is judged from the received bytes only: too short, wrong action, wrong transaction, or a connection id |
| ScrapeCodec.ConnectRoundTrip | internal/scrape/scrape.go:77-105 | a conforming connect reply gives its connection id exactly when the transaction ids agree |
| ScrapeCodec.BuildScrape | internal/scrape/scrape.go:107-121 | a request is built if and only if every infohash is 40 hex digits |
| ScrapeCodec.FillHashes | internal/scrape/scrape.go:115-121 | the loop fills the body with the hashes and leaves the header alone |
| ScrapeCodec.RequestRoundTrip | internal/scrape/scrape.go:107-121 | the packet has 16 + 20n bytes and decodes to its connection id, action 2, transaction id and the infohashes in lower case, in order |
| ScrapeCodec.EncodesDecoded | internal/scrape/scrape.go:115-121 | hex decoding loses nothing but letter case |
| ScrapeCodec.ReadScrape | internal/scrape/scrape.go:127-154 | the reply is judged from the first n received bytes only: too short, wrong action, wrong transaction, or a table |
| ScrapeCodec.ReplyExactly | internal/scrape/scrape.go:139-154 | for distinct infohashes the table holds exactly the first of them of which the reply holds twelve bytes each, with seeders, completed and leechers from those bytes in that order |
| ScrapeCodec.TableExactly | internal/scrape/scrape.go:143-152 | with repeated infohashes each keeps its last entry |
| ScrapeCodec.ReplyRoundTrip | internal/scrape/scrape.go:127-154 | decoding inverts an encoder of conforming replies, shorter ones included |
| ScrapeBatch.ScrapeOnce | internal/ingest/scrape.go:20-69 | exactly the due torrents are asked about, each in one request of 1 to 74 of its own tracker; the store ends as the answers, and whatever others write before each of them, leave it, and the count is the number of rows accepted |
| ScrapeBatch.PassedExactly | internal/ingest/scrape.go:53-63 | whatever others write meanwhile, a torrent they delete and do not store anew keeps neither entry nor statistics, an answer that comes later being refused; one they neither delete, store nor count gets what the answers bring |
| ScrapeBatch.PassStores | internal/ingest/scrape.go:42-63 | field by field: a torrent that others leave alone, whose infohash the answer to its request names and no later torrent of its batch shares, has the seeders of the answer as seeders, its leechers as leechers and the time of the pass as date; any other torrent asked about has what it had |
| ScrapeBatch.PassSpares | internal/ingest/scrape.go:53-63 | a torrent nobody asked about and others leave alone has what it had |
| ScrapeBatch.PassCounts | internal/ingest/scrape.go:35-68 | while no torrent comes or goes, the count is the number of catalogued torrents an answer names |
| ScrapeBatch.DueExactly | internal/store/stats.go:54-75 | after the pass such a torrent is due if and only if it was a target, has not been deleted, and no answer brought it counters |
| ScrapeBatch.GroupByTracker | internal/ingest/scrape.go:30-33 | each tracker's group is its targets, in order |
| ScrapeBatch.WriteBatch | internal/ingest/scrape.go:53-63 | one answer writes exactly the rows it reports of torrents still catalogued, whatever the order it is gone through, and counts those |
| ScrapeBatch.CutsFlat | internal/ingest/scrape.go:37-46 | cutting a group at 74 keeps every target once, in order |
| ScrapeBatch.NothingTruncated | internal/scrape/scrape.go:51-53 | the silent truncation of long requests never drops a torrent of a pass |
| ScrapeBatch.StatsExactly | internal/ingest/scrape.go:42-63 | the answers bring a torrent exactly the counters its own tracker reported for its own infohash, or, where a later torrent of the batch shares the infohash or none was reported, what it had |
| ScrapeBatch.ReplyStored | internal/ingest/scrape.go:42-63 | the same of the answers alone, field by field: seeders, leechers, date |
| ScrapeBatch.GoneExactly | internal/ingest/scrape.go:53-63 | a torrent is gone when an answer comes in if and only if some write before it deleted it |
| ScrapeBatch.OthersUntouched | internal/ingest/scrape.go:53-63 | torrents not asked about keep their statistics |
| ScrapeBatch.NothingLeftDue | internal/ingest/scrape.go:20-69 | when every answer is complete and infohashes are distinct per batch, no torrent others have left alone stays due |
| ScrapeRun.PassIsRun | internal/ingest/scrape.go:20-69 | what the pass does to the store is a run of the state machine: any run of the others, cut where the answers come in, with a write-back for each row told in between; it leads where the others alone lead, but for the statistics |
| ScrapeRun.CountersHonest | internal/ingest/scrape.go:53-63 | whatever synchronisers, consumers and moderators do between the write-backs of any number of passes, a counter is an old one or what some pass was told of that torrent |
| ScrapeRun.CountersExactly | internal/ingest/scrape.go:53-63 | while a torrent stays catalogued its counters are those of the last write-back, of whichever pass, or, without one, what they were |

## Left out

- Network, TLS, signatures, bech32, JSON and the SQLite engine: relays are any source of published events that match the filter, signature checks, tokenizer and metadata parsing are parameters.
- Command line, process handling, configuration, templates, RSS, Markdown, backup, settings and the relay table's own operations: plumbing, or operations as easy as those of followed accounts.
- Reads of the store never fail in the model, except the lists read by a live reload and at the start of a synchronisation of all accounts.
- Rowids: a new row gets any rowid not in use (SQLite takes the largest plus one), so every reuse after a delete is covered but the choice itself is not.
- Database.Store.GetTorrent: files come in the order they were inserted, where the SQL leaves the order open.
- Database.Store.Search: equal dates are ordered by rowid, where the SQL leaves the order open; a word without tokens is dropped from the conjunction and a query without tokens matches nothing, as the FTS5 engine does; the tokenizer is a parameter that yields no token for the empty text.
- Server.HandleSearch: takes the trimmed query and the parsed page number; failures of the search and the rendering of the page are left out.
- FtsQuery.Build: characters stand for runes; invalid UTF-8 and the NUL character are not modelled.
- Nip35.ParseTorrent: tags of fewer than two elements are skipped as the tag library does; URL checks and the choice of the image are parameters; lower-casing is of ASCII letters, the only ones an accepted infohash can have.
- RateLimit.Limiter.Allow: rate and window are positive, as where the limiter is created (internal/web/server.go); times and the product of refills and rate are unbounded integers; the address is given, not taken from a request's headers.
- Counters and dates are unbounded integers; wrap-around is modelled where the source can reach it (the total size of files, the offset of a page).
- Protocol events are parsed entries as values, so an event of the machine stands for any delivered event that parses to it; local creation and update dates are part of the store but not of the catalogue value.
- Confluence.Confluent: profiles are taken as parsable and as never dated the same for one account, since the client keeps the first and the store the last of equals.
- NoGap.NoGap: a subscription is assumed to deliver an author's events in the order of their dates, and the relays to answer completely; both are up to the relays.
- ScrapeBatch.ScrapeOnce: in the method itself others write before each answer is written back, not between the rows of one answer; that is covered on the runs of the state machine.
- Live: cancellation is immediate in the manager; in the state machine a replaced subscription may go on delivering until it ends, so no property of runs depends on it.
- The two lists a reload reads are one step of the machine.
