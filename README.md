# Portfolio site data layer, in Dafny

This project models the data layer of a personal portfolio web site, together with the admin page's project form. The site is built on Next.js and keeps its data in a Firebase Realtime Database. The model covers:

- **Portfolio items** (`lib/portfolio.ts`):
  - the list, which seeds two sample projects into an absent collection;
  - create, update and delete;
  - the batch that writes the samples;
  - the one-time migration of a legacy browser-storage copy;
  - the one-shot "subscribe" read.
- **Work experiences** (`lib/experience.ts`): list, create, update and delete on a second collection.
- **Profile** (`lib/profile.ts`): read and write of the `profile` node.
- **Visit analytics** (`lib/analytics.ts`): `recordVisit`. It checks a once-per-session guard, increments a counter in a transaction, pushes a visit log and sets a session flag.
- **Image URLs** (`lib/image-utils.ts`): the rewrite of GitHub blob URLs into raw-content URLs.
- **The admin project form** (`app/admin/page.tsx`):
  - turning the comma-separated technologies text into a tag list;
  - prefilling the form with a project's fields on edit, joining its tags;
  - resetting the form;
  - submitting the form, which patches or creates the project.

## How the store is modelled

- **Records.** Records are field bags: `Json.Fields` is a map from field names to `Text`, `Number` or `TextList` values.
- **The database.** `Store.Database` is a class. It holds:
  - the two collections, as a `Store.Tree` value;
  - the profile node;
  - the visitor counter;
  - the visit logs.

  Each database call is a method that modifies only the fields it writes.
- **Write semantics** follow the Realtime Database:
  - a stored record drops its empty lists;
  - a record left with no fields is absent;
  - an empty collection reads as absent;
  - `update` on a missing key creates the child;
  - `set` replaces a node wholesale.
- **Listing.** A listing materialises each child as its key plus its fields, with a numeric `createdAt` turned into text. `Collection.IsListing` states what every listing promises:
  - its multiset is exactly the materialised records;
  - it is ordered newest first.
- **Things outside the program** become parameters:
  - an `ok` flag per call says whether the database call succeeds;
  - `outcome: nat -> bool` does the same for each write of a batch;
  - the server clock is `now`, the browser clock `clientNow`;
  - the geolocation answer, user agent and path are fields of `Analytics.Attempt`.
- **Push keys.** `Store.FreshKey` stands in for the id `push()` generates. It keeps only two facts: the key is not in use, and it is a child key.
- **Child keys.** A record's id is put into a path (`` ref(database, `${path}/${id}`) ``). `Store.IsKey` is a key that names exactly one child: non-empty, without `/`, and without the characters `ref` refuses with an exception: `. # $ [ ]` and the control characters U+0000 to U+001F and U+007F. A refused key is modelled as a failed call.
- **Store validity.** `Store.Database.Valid` says every child of the two collections has a child key, at least one field, no absent field and no `id`. The constructor establishes it. Every operation on the collections keeps it: create, update and delete, batches, seeding, migration and the project form's submit.

## Where the code departs from the intended behaviour

The model follows the code in both places below.

- **An empty legacy list is not a no-op.** One would expect the migrator to do nothing for an empty local list. The code only tests that the stored text is non-empty (`lib/portfolio.ts:148`). A stored `[]` therefore still reads the remote collection. When that collection is empty, the code runs an empty batch and removes the local entry. `Portfolio.MigrationPlan` gives `Copy([], true)` for that case.
- **Seeding is not "at most once".** Seeding looks meant to run at most once. The code calls the list again after seeding (`lib/portfolio.ts:58`), and swallows seeding failures (`lib/portfolio.ts:136-138`). If no sample write succeeds, it seeds again and again. See Findings below.

## Model

| member | source | states |
|---|---|---|
| Time.ParseDecimalOfDecimal | lib/portfolio.ts:69-71 | reading back the decimal text of a number gives that number |
| Time.TimeOfToIso | lib/portfolio.ts:69-76 | parsing the timestamp text that listing creates gives back the stored milliseconds, so ordering by the text is ordering by the number |
| Time.ToIsoInjective | lib/portfolio.ts:69-71 | distinct timestamps give distinct texts |
| Store.SetChildOthers | lib/portfolio.ts:95 | a `set` at one key leaves every other child as it was |
| Store.SetChildField | lib/portfolio.ts:95 | after a `set`, the child exists exactly when the value has a present field; it then holds exactly the present fields |
| Store.UpdateChildField | lib/portfolio.ts:113 | an `update` keeps unpatched fields and takes patched ones; the child survives exactly when a present field remains |
| Store.FreshKey | lib/portfolio.ts:88 | a push key is not yet used and is a child key: non-empty, no `/`, no character `ref` refuses |
| Store.SetChildWell | lib/portfolio.ts:95 | a `set` at a child key of a value without `id` keeps every child well formed |
| Store.Database.constructor | lib/portfolio.ts:26 | an empty database: no collections, no profile, no counter, no logs; it is valid |
| Store.Database.Get | lib/portfolio.ts:52-53 | a successful read returns the subtree; a failed one returns nothing |
| Store.Database.Push | lib/portfolio.ts:88 | the new key is a child key not among the collection's children |
| Store.Database.Set | lib/portfolio.ts:95 | on success only the addressed collection changes, by `set` semantics; on failure nothing changes; a set at a child key of a value without `id` keeps the store valid |
| Store.Database.Update | lib/portfolio.ts:112-113 | the call goes through exactly when it succeeds and the id has no character `ref` refuses; then only the addressed collection changes, by `update` semantics; otherwise nothing changes; a patch without `id` keeps the store valid |
| Store.Database.Remove | lib/portfolio.ts:122-123 | the call goes through exactly when it succeeds and the id has no character `ref` refuses; then the child is gone, or the whole collection when the id is empty, and nothing else changes; otherwise nothing changes; the store stays valid |
| Store.Database.GetProfile | lib/profile.ts:18-19 | a successful read returns the profile node |
| Store.Database.SetProfile | lib/profile.ts:35-36 | on success the node becomes the stored form of the data; on failure it is unchanged |
| Store.Database.RunTransaction | lib/analytics.ts:66-69 | on success the counter becomes the update function of the old counter; on failure it is unchanged |
| Store.Database.PushLog | lib/analytics.ts:72-73 | the log key is a fresh child key |
| Store.Database.SetLog | lib/analytics.ts:74 | on success exactly one log entry is added at the key; on failure the logs are unchanged |
| Browser.Storage.constructor | lib/portfolio.ts:145-146 | a browser with the given legacy entry and no visit recorded |
| Collection.Strip | lib/portfolio.ts:163 | the copy lacks `id` and `createdAt` and keeps every other field |
| Collection.WrittenFields | lib/portfolio.ts:90-93 | the stored record of a create has no `id` and has the server time as `createdAt` |
| Collection.WrittenAllStep | lib/portfolio.ts:133-134 | the records of a batch's first i+1 writes are those of the first i plus write i's record on success |
| Collection.AllSucceedStep | lib/portfolio.ts:134 | the batch succeeds through write i exactly when it succeeded before i and write i succeeds |
| Collection.WrittenAllSize | lib/portfolio.ts:133-134 | a batch stores at most one record per write; it stores none exactly when every write fails, and one per write when all succeed |
| Collection.ToItemFields | lib/portfolio.ts:65-73 | a listed item has its key as `id` and every stored field; a numeric `createdAt` becomes its timestamp text, any other is kept; its time is the stored one |
| Collection.InsertSorted | lib/portfolio.ts:76 | inserting into a newest-first list keeps it newest first |
| Collection.InsertKeeps | lib/portfolio.ts:76 | inserting adds exactly the one record to the multiset |
| Collection.InsertHead | lib/portfolio.ts:76 | an insertion starts with the new record or with the old head |
| Collection.NewestFirstTail | lib/portfolio.ts:76 | the tail of a newest-first list is newest first and starts no later than the head |
| Collection.PrependNewest | lib/portfolio.ts:76 | a record no older than the head can be put in front |
| Collection.SortNewestFirstSpec | lib/portfolio.ts:76 | the sort's result is newest first and a permutation of its input |
| Collection.RecordsRemove | lib/portfolio.ts:65-73 | the materialised records of a collection are those of one child plus those of the rest |
| Collection.TaggedRemove | lib/portfolio.ts:65-73 | materialising then dropping a key equals dropping the key then materialising |
| Collection.ListingPerKey | lib/portfolio.ts:61-78 | a listing has one item per child; each child's item appears in it; every item comes from some child; without stored ids each child's item appears exactly once |
| Collection.ValidNoStoredIds | lib/portfolio.ts:90-93 | in a valid store no stored child carries an `id` field |
| Collection.Materialise | lib/portfolio.ts:61-78 | the returned items are a listing of the data: a permutation of the materialised children, newest first |
| Portfolio.SampleFacts | lib/portfolio.ts:29-48 | there are two samples, neither with `id` nor `createdAt`: the mobile shop app and the web task dashboard, four technologies each |
| Portfolio.SeedWrites | lib/portfolio.ts:131-134 | seeding stores sample 0 when its write succeeds, then sample 1 when its write succeeds; it stores nothing exactly when both fail |
| Portfolio.SavePortfolioItem | lib/portfolio.ts:85-108 | on success: a key new to the collection that is a child key (so the returned id is non-empty), the draft stored with the server time, the rest of the tree untouched, and the draft returned with the key and the client time; on failure: the save error and nothing changed; the store stays valid |
| Portfolio.UpdatePortfolioItem | lib/portfolio.ts:110-118 | when the call succeeds and the id has no character `ref` refuses, the child is patched field by field, or created when missing; otherwise (a failed call, or the exception for a refused id): the update error and nothing changed; the store stays valid |
| Portfolio.DeletePortfolioItem | lib/portfolio.ts:120-128 | when the call succeeds and the id has no refused character, the child is removed, a missing id changes nothing, and the empty id removes the whole collection; otherwise: the delete error and nothing changed; the store stays valid |
| Portfolio.SaveAll | lib/portfolio.ts:133-134 | after a batch of creates, the bag of the collection has grown by exactly the records of the successful writes; every earlier child is kept; the other collection is untouched; the batch reports success exactly when every write succeeded; the store stays valid |
| Portfolio.SaveNext | lib/portfolio.ts:133-134 | one more write of a batch keeps the batch invariant; the store stays valid |
| Portfolio.ExtendsTrans | lib/portfolio.ts:133-134 | keeping every child is transitive over successive writes |
| Portfolio.SaveCounted | lib/portfolio.ts:133 | one create adds its stored record to the collection's bag on success and nothing on failure, and keeps every earlier child; the store stays valid |
| Portfolio.InitializeSampleData | lib/portfolio.ts:131-139 | the collection gains exactly the stored records of the samples whose writes succeed; failures are swallowed; the store stays valid |
| Portfolio.GetPortfolioItems | lib/portfolio.ts:50-83 | a failed read gives the fetch error and no write. A present collection is listed with no write. An absent one is seeded: only the stored samples are then in it, and it is non-empty exactly when a sample write succeeded. It is then listed once more: a failed re-read gives the fetch error; the store stays valid |
| Portfolio.SeededRound | lib/portfolio.ts:131-139 | one seeding round leaves data behind exactly when one of its two writes succeeds |
| Portfolio.ListAsWrittenDiverges | lib/portfolio.ts:55-58 | with every read succeeding and every sample write failing (the failures swallowed at lines 136-138), the list as written never finishes, whatever the recursion budget |
| Portfolio.ListAsWrittenAgrees | lib/portfolio.ts:55-58 | when a seeding round stores something, the list as written finishes on its second call. It then lists exactly the stored samples, as the corrected model does |
| Portfolio.DeleteLastThenList | lib/portfolio.ts:50-59 | in a valid store, deleting the only project empties the collection, so the next list writes the samples again and lists them |
| Portfolio.SubscribeToPortfolioItems | lib/portfolio.ts:179-217 | the callback runs exactly when the read succeeds, and receives a listing of the collection |
| Portfolio.Stripped | lib/portfolio.ts:162-165 | the local items are re-created one for one, in order; no draft has `id` or `createdAt`, and each keeps every other field of its item |
| Portfolio.MigrateFromLocalStorage | lib/portfolio.ts:142-176 | with no local entry, an unparsable one, a failed read or a non-empty remote collection, nothing changes. Otherwise the remote collection holds exactly the stored copies of the local items, and the local entry is removed exactly when every create succeeded; the store stays valid |
| Portfolio.MigrationIdempotent | lib/portfolio.ts:152-170 | migration runs at most once: once a run has written something or removed the local entry, every later run skips, whatever its own read, write outcomes and time; a second run under the same outcomes writes nothing and keeps the local entry, whatever the first run did |
| Experience.GetWorkExperiences | lib/experience.ts:23-54 | a failed read gives the fetch error; an absent collection gives the empty list; otherwise a listing, newest first; no write |
| Experience.SaveWorkExperience | lib/experience.ts:56-79 | on success: a fresh child key (so the returned id is non-empty), the draft stored with the server time, the echo with the client time, the portfolio collection untouched; on failure: the save error and nothing changed; the store stays valid |
| Experience.UpdateWorkExperience | lib/experience.ts:81-89 | when the call succeeds and the id has no refused character, a field-level patch (or a create) of the child; otherwise: the update error and nothing changed; the store stays valid |
| Experience.DeleteWorkExperience | lib/experience.ts:91-99 | when the call succeeds and the id has no refused character, the child is removed, and the empty id removes the whole collection; otherwise: the delete error and nothing changed; the store stays valid |
| Experience.SaveThenList | lib/experience.ts:23-79 | when no stored child carries an `id` field (as in every valid store, by `Collection.ValidNoStoredIds`), a saved experience appears exactly once in the next listing, which is one longer than before, and the portfolio collection is untouched |
| Profile.GetProfileData | lib/profile.ts:16-31 | a successful read gives the stored profile, which has a field whenever it is present; a failed read gives none, as an absent profile does |
| Profile.SaveProfileData | lib/profile.ts:33-41 | on success the node holds the data's present fields, or is absent when there are none; on failure: the save error and the node unchanged |
| Profile.SaveThenGet | lib/profile.ts:16-41 | reading after a successful save gives back the data when it has a field, and nothing when it has none |
| Analytics.OrUnknown | lib/analytics.ts:51-55 | a given non-empty text is kept; a missing or empty one becomes `unknown`; the result is never empty |
| Analytics.LogEntry | lib/analytics.ts:50-62 | the ip, city, region and country are the given non-empty texts (the country from the country name), and `unknown` when missing or empty; given coordinates are kept and missing ones are 0; user agent, path and time are those given |
| Analytics.EmptyAnswer | lib/analytics.ts:50-58 | an empty geolocation answer logs `unknown` everywhere and coordinates 0 |
| Analytics.Increment | lib/analytics.ts:67-69 | the counter becomes the old count plus one, with a missing counter counting as 0 |
| Analytics.VisitEffect | lib/analytics.ts:33-82 | a call changes something exactly when the session is unrecorded, the lookup answered and the transaction succeeded. It sets the flag exactly when it succeeds. It adds at most one log and at most one to the counter |
| Analytics.RecordedStays | lib/analytics.ts:35-37 | once the session flag is set, no further call changes anything |
| Analytics.OncePerSession | lib/analytics.ts:35-77 | after a first successful call, any sequence of calls counts and logs the visit exactly once |
| Analytics.CounterDrift | lib/analytics.ts:67-77 | calls whose log write fails raise the counter by one each and never log or set the flag |
| Analytics.RecordVisit | lib/analytics.ts:33-82 | the new counter, logs and flag are exactly one visit step from the old ones. Success adds one entry under a fresh key; any other outcome leaves the logs unchanged |
| ImageUtils.FindFrom | lib/image-utils.ts:17-18 | the index found is the first occurrence at or after the start; none means no occurrence there |
| ImageUtils.ReplaceFirstSpec | lib/image-utils.ts:18 | text without the pattern is unchanged; otherwise only the first occurrence is replaced |
| ImageUtils.HostStep | lib/image-utils.ts:18 | replacing the host adds 15 characters, keeps a `/blob/` present and keeps at most one `/blob/` |
| ImageUtils.CutLeavesNone | lib/image-utils.ts:18 | removing the only `/blob/` leaves none |
| ImageUtils.OptimizedCases | lib/image-utils.ts:13-22 | an empty or missing URL gives empty text; a URL lacking either marker is returned as is; a blob URL gets its first host and first `/blob/` replaced, ten characters longer |
| ImageUtils.OptimizedIdempotent | lib/image-utils.ts:13-22 | optimising an optimised URL changes nothing when the URL had at most one `/blob/` |
| ImageUtils.BlobUrl | lib/image-utils.ts:13-22 | a GitHub blob URL with no earlier host or segment maps to the raw URL with the segment as `/` |
| ImageUtils.DocExample | lib/image-utils.ts:9-11 | the documented example input gives the documented output |
| Tags.SplitJoinComma | app/admin/page.tsx:162 | joining the pieces of a comma split with commas gives back the text |
| Tags.SplitAtComma | app/admin/page.tsx:162 | splitting at a comma is splitting each side |
| Tags.SplitCommaFree | app/admin/page.tsx:162 | no piece of a comma split contains a comma |
| Tags.TrimSpec | app/admin/page.tsx:162 | trimming gives a slice of the text, cut only at whitespace, that neither starts nor ends with whitespace; trimmed text is unchanged |
| Tags.ParseTagsAreTags | app/admin/page.tsx:162 | every parsed technology is non-empty, trimmed and comma-free |
| Tags.ParseTagsAtComma | app/admin/page.tsx:162 | parsing text joined at a comma is parsing each side |
| Tags.ParseTagsSpace | app/admin/page.tsx:162 | a leading space changes nothing |
| Tags.ParseJoin | app/admin/page.tsx:207 | parsing (as line 162 does) the `, `-joined list of well-formed tags gives back exactly that list |
| AdminPage.Payload | app/admin/page.tsx:165-175 | the submitted fields never carry `id` or `createdAt` |
| AdminPage.EditSubmitKeepsFields | app/admin/page.tsx:162-212 | submitting an unchanged prefilled form writes exactly the project's own fields, tag list included |
| AdminPage.PrefillFields | app/admin/page.tsx:200-212 | the prefill copies title, description and type, and replaces a missing image or URL by empty text |
| AdminPage.ProjectForm.constructor | app/admin/page.tsx:215-226 | a new form is empty, edits nothing and is closed |
| AdminPage.ProjectForm.HandleEdit | app/admin/page.tsx:200-212 | editing remembers the project, prefills the form and opens the dialog |
| AdminPage.ProjectForm.ResetForm | app/admin/page.tsx:215-226 | the form is empty and no project is being edited |
| AdminPage.ProjectForm.HandleSubmit | app/admin/page.tsx:158-185 | editing patches the project with the payload, otherwise the payload is created. Success returns the matching toast, closes the dialog and resets the form. Failure, including an edited id that `ref` refuses, returns the failure toast and leaves store, form and dialog unchanged; the store stays valid |
| AdminPage.CommaHasNoTags | app/admin/page.tsx:162 | the technologies text `,` parses to no tags |
| AdminPage.NoTagsListThrows | app/admin/page.tsx:403 | a project created with text that parses to no tags is listed without a `technologies` list, so the list render's `technologies.slice` has no list to read |
| AdminPage.ListedTagsShown | components/Portfolio.tsx:144 | with a missing list read as empty, a listed project shows exactly the tags parsed from the text it was created with |
| AdminPage.EditListedTags | app/admin/page.tsx:206 | with a missing list read as empty, joining a listed project's tags for editing and parsing them again gives back the tags of the text it was created with |

## Left out

- Network and database transport are not modelled: every call succeeds or fails whole, by a flag. Concurrent `Promise.all` writes are taken in array order, and races between tabs are not modelled.
- `serverTimestamp()` and `new Date()` are the parameters `now` and `clientNow`. The calendar form of `toISOString` is replaced by a signed decimal text with the same round trip, so `new Date(text).getTime()` reads back the number. A `createdAt` text that does not parse reads as time 0; NaN comparisons are not modelled.
- `Array.prototype.sort` is modelled as a sorted copy: its in-place update and the order of equal timestamps are not captured. Ties may come out in any order.
- Push-key format and ordering: a push key is modelled only as an unused non-empty string.
- `JSON.parse` of the legacy browser entry: the entry is already parsed, or marked unparsable (the catch path).
- `typeof window === 'undefined'` in server rendering is not modelled. Neither is `console` logging.
- Latitude and longitude are integers here; the source has floating-point numbers.
- `Analytics.RecordVisit`: the geolocation fetch and its JSON body are the `Lookup` parameter. The user agent and path are parameters. Transaction retries under contention are not modelled.
- `Portfolio.SubscribeToPortfolioItems`: the unsubscribe function is a no-op placeholder in the source and is not modelled. A read error is swallowed, and the callback is then not called.
- `Profile.GetProfileData`: "a present profile has a field" is stated under the store's validity condition `ProfileValid`, which every write through `SaveProfileData` keeps; a profile written by other code is not covered.
- `Portfolio.UpdatePortfolioItem` and `Experience.UpdateWorkExperience` require a patch without `id` or `createdAt`, which the source's parameter type demands.
- `Store.Database.Update`, `Portfolio.UpdatePortfolioItem` and `Experience.UpdateWorkExperience` require an id that is non-empty and has no `/`. With such an id the source's `update` would patch the whole collection or a deeper node; the model has no deeper nodes. An id with a character `ref` refuses is modelled, as a failure.
- `Store.Database.Remove`, `Portfolio.DeletePortfolioItem` and `Experience.DeleteWorkExperience` require an id without `/`, which would remove a deeper node. The empty id, which removes the whole collection, and refused characters are modelled.
- `AdminPage.ProjectForm.HandleSubmit` requires the edited project's id to be non-empty and without `/`, as the update it calls does; listed projects have such ids in a valid store.
- `AdminPage.ProjectForm.HandleEdit` takes a typed project whose tag list is always present. A listed record can lack `technologies` (see Findings); the page would then throw while rendering the list, before the edit button shows. The typed project stands for the corrected reading `AdminPage.ListedTagsOrEmpty`, which takes a missing list as no tags.
- `Portfolio.DeleteLastThenList` requires a valid store, so that the only child's key is a child key. Every operation of the model on the two collections keeps validity, seeding and migration included.
- `AdminPage.ProjectForm.HandleSubmit`: `loadProjects` after a submit is not modelled. It only refreshes the page's list and catches its own errors. The toast is returned as text; the rest of the page's rendering is left out.
- The admin page's experience and profile forms, delete handler and login gate are outside this model.

## Findings

| source | as written | input that shows it | evidently intended | confidence | as-written member | corrected member |
|---|---|---|---|---|---|---|
| lib/portfolio.ts:55-58 | an absent collection is seeded and `getPortfolioItems` calls itself again; seeding swallows write errors (lines 136-138), so if every sample write fails the collection stays absent and the recursion never ends | every read succeeds and both sample writes fail on every round | seed once, then list whatever is stored, without seeding again | not executed | Portfolio.ListAsWrittenDiverges | Portfolio.GetPortfolioItems |
| app/admin/page.tsx:403 | the admin list renders `project.technologies.slice(0, 3)` for each listed project. The public list does the same with `map` at components/Portfolio.tsx:144, and `handleEdit` with `join` at line 206. A project stored without a list throws at the first of these it reaches | the technologies text `,`, which passes the form's `required` check and parses to no tags, so the record is stored without a list | treat a missing list as no tags | not executed | AdminPage.NoTagsListThrows | AdminPage.ListedTagsShown |
