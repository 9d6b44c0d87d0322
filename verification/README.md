# BiblioAI book tracker — a Dafny model of its core

BiblioAI is a single-page reading tracker. The user keeps a library of
books. Each book has a reading status (to read, reading, completed), a page
count and a current page. The app can ask an AI service for an analysis of a
book and can hold a chat about it. This project models the three pieces of
the app that hold its logic:

- **App.tsx** — the library store (`module App`, `class Library`):
  - the initial list, which is the stored list or two sample books;
  - adding a book from the modal form, refused when the title or author is blank;
  - replacing a book by id (`handleUpdateBook`);
  - the status callback handed to each book card. The card component
    receives it but never calls it, so no user event currently reaches it;
  - the modal and input state.
- **components/Statistics.tsx** — the reading statistics (`module Statistics`):
  - the per-status and per-genre tallies, modelled as loops that fill a dictionary;
  - the pie-chart series, with its zero filter;
  - the bar-chart series: sorted by count, largest first, and cut to the top five;
  - the pages-read total.
- **components/BookDetail.tsx** — the detail modal (`module BookDetail`, `class ChatSession`):
  - attaching the AI analysis and its genre to a book that has none;
  - the status and progress edits;
  - the chat transcript and the history handed to the chat call.
- **types.ts** — the records (`module Types`), plus JavaScript's `trim` and
  the blank test the forms use.

Some inputs come from outside the app: clock readings, random cover numbers,
stored data and AI replies. The model takes each of these as a parameter.
Where JavaScript's loose semantics decide a branch, the model spells it out:
- `x || fallback` treats `""` and `0` as missing;
- `saved ? …` treats an empty stored string as absent;
- `parseInt(v) || 0` turns a non-number into 0.

The behaviour follows the code. In particular:
- The card status callback looks up the FIRST book with the id. It then
  writes that copy over EVERY book carrying the id. The card component
  (components/BookCard.tsx) never calls it; its quick-action area is empty.
- `handleUpdateBook` always sets the detail selection to its argument.

## Model

| member | source | states |
|---|---|---|
| Types.BlankIffAllWhitespace | App.tsx:59 | `IsBlank(s)`, i.e. `Trim(s)` is empty (the blank test `!s.trim()`), holds exactly when every character of the input is JavaScript whitespace |
| App.SeedBooks | App.tsx:10-33 | the fallback library holds two books: one completed, one being read. Their ids are distinct, their progress lies within their page counts, each has a genre and neither has an analysis |
| App.NewBook | App.tsx:61-70 | a new book is to-read, at page 0 of 300, and has no analysis or genre. It carries the typed title and author, the clock id and time and the random cover |
| App.ReplaceById | App.tsx:79 | the update keeps the length; every position whose id matches holds the new record and every other position is unchanged |
| App.FindById | App.tsx:180 | the lookup finds nothing exactly when no book has the id; otherwise it returns the first book that has it |
| App.ReplaceKeepsIds | App.tsx:79 | an update never changes the sequence of ids |
| App.ReplaceAbsentIsIdentity | App.tsx:79 | an update whose id is not in the list leaves the list unchanged |
| App.ReplaceUniqueIsPointUpdate | App.tsx:79 | with unique ids, an update changes exactly the one position carrying the id |
| App.ReplaceIdempotent | App.tsx:79 | applying the same update twice is the same as applying it once |
| App.ReplaceKeepsUniqueIds | App.tsx:78-82 | an update preserves unique ids |
| App.PrependKeepsUniqueIds | App.tsx:72 | putting a book with a fresh id in front preserves unique ids |
| App.StatusUpdateFromCard | App.tsx:179-182 | the card's status callback replaces every book carrying the id by the first match with the new status and keeps every other book |
| App.StatusUpdateChangesOnlyStatus | App.tsx:179-182 | with unique ids the callback changes only the status field of the one book carrying the id |
| App.Library.constructor | App.tsx:36-47 | an absent or empty stored entry yields the sample books; otherwise the decoded list is used. Nothing is selected, the modal is closed and the inputs are empty |
| App.Library.OpenAddModal | App.tsx:121 | the modal opens and nothing else changes |
| App.Library.CloseAddModal | App.tsx:226 | the modal closes, the typed text is kept, nothing else changes |
| App.Library.TypeTitle | App.tsx:240 | the title input takes the typed text, nothing else changes |
| App.Library.TypeAuthor | App.tsx:251 | the author input takes the typed text, nothing else changes |
| App.Library.Select | App.tsx:178 | the detail selection becomes the given book (or none), nothing else changes |
| App.Library.AddBook | App.tsx:57-76 | a blank title or author changes nothing. Otherwise the new book goes in front of the list, both inputs are emptied and the modal closes. The selection is never touched |
| App.Library.UpdateBook | App.tsx:78-82 | the list becomes the by-id replacement and the selection becomes the argument; the modal and inputs are unchanged |
| App.Library.UpdateStatus | App.tsx:179-182 | an unknown id changes nothing. Otherwise the first match with the new status goes through the update: it replaces every book with that id and becomes the selection |
| Statistics.StatusCount | components/Statistics.tsx:12-15 | the number of books with a status is at most the list length, and it is positive exactly when some book has that status |
| Statistics.CountStatuses | components/Statistics.tsx:12-15 | the fold's dictionary has a key exactly for the statuses some book has, and each value is the number of such books |
| Statistics.StatusCountsSumToLength | components/Statistics.tsx:12-15 | the three status counts add up to the number of books |
| Statistics.LookupIsCount | components/Statistics.tsx:57 | `counts[s] \|\| 0`, e.g. the "Completados" figure, is the number of books with that status. It is 0 exactly when no book has it |
| Statistics.KeepPositive | components/Statistics.tsx:21 | the filter keeps every positive slice and only positive slices, and never lengthens the series |
| Statistics.KeepPositiveOfThree | components/Statistics.tsx:17-21 | filtering the three slices keeps exactly the positive ones, in their order |
| Statistics.StatusDataOrdered | components/Statistics.tsx:17-21 | `StatusData`, the pie series, has at most three slices, in the fixed order Leídos, Leyendo, Por Leer. Each slice has a positive value and carries its status's label, count and colour |
| Statistics.StatusDataComplete | components/Statistics.tsx:17-21 | a status has a slice in `StatusData` exactly when its count is positive |
| Statistics.StatusDataTotal | components/Statistics.tsx:17-21 | the values of `StatusData` add up to the three status counts |
| Statistics.StatusDataOfBooks | components/Statistics.tsx:12-21 | the slices add up to the number of books, and each slice shows its status's book count |
| Statistics.GenreKey | components/Statistics.tsx:25 | a book without a genre, or with an empty one, is counted under 'Otros'; any other genre is its own key, and a key is never empty |
| Statistics.FirstOccurrences | components/Statistics.tsx:24-28 | the object's key order is duplicate-free and has exactly the keys that occur |
| Statistics.CountGenres | components/Statistics.tsx:24-28 | the fold yields the genre keys in order of first appearance, each with the number of books carrying it |
| Statistics.GenreCountsSumToLength | components/Statistics.tsx:24-28 | every book is counted exactly once, so the genre counts add up to the number of books |
| Statistics.GenreEntries | components/Statistics.tsx:30-31 | `Object.entries(...).map(...)` gives one entry per key, in key order, each holding that key's count |
| Statistics.Insert | components/Statistics.tsx:32 | inserting into a list sorted largest-first keeps it sorted and adds exactly the one entry |
| Statistics.SortByValue | components/Statistics.tsx:32 | the sort by descending value yields a largest-first permutation of the entries |
| Statistics.TakeTop | components/Statistics.tsx:33 | `slice(0, 5)` is the prefix of length min(n, 5) |
| Statistics.GenreDataSize | components/Statistics.tsx:30-33 | `GenreData`, the bar series, has min(number of genres, 5) entries |
| Statistics.GenreDataCounts | components/Statistics.tsx:30-33 | each bar of `GenreData` is a genre of the tally with its exact count |
| Statistics.GenreDataTop | components/Statistics.tsx:32-33 | the bars are largest first, and no genre left out has a larger count than any bar shown; GenreDataDistinct adds that no genre is shown twice |
| Statistics.GenreDataDistinct | components/Statistics.tsx:30-33 | no genre appears on two bars: the entries of `genreData` carry pairwise different names (with GenreDataTop and GenreDataCounts, the bars are exactly the top of the tally) |
| Statistics.GenreDataOfBooks | components/Statistics.tsx:24-33 | each bar shows the positive number of books that carry its genre key |
| Statistics.PagesReadSplit | components/Statistics.tsx:35-39 | `PagesRead`, the pages-read total, = the page counts of completed books + the current pages of books being read; to-read books add nothing |
| Statistics.PagesReadAppend | components/Statistics.tsx:35-39 | the total over two lists joined is the sum of their totals |
| Statistics.PagesReadBounds | components/Statistics.tsx:35-39 | when every book's progress lies within the book, the total lies between 0 and the page counts of the books that are not to-read |
| Statistics.JsTallyAgreesOffPrototype | components/Statistics.tsx:24-28 | when no genre key names an inherited object member, `JsGenreTally`, the object tally as written, equals the dictionary tally: one numeric slot per key holding its count |
| Statistics.InheritedGenreMiscounted | components/Statistics.tsx:26 | a book with genre "toString" occurs once, yet its slot in the object tally holds a string, not the number 1 |
| Statistics.ProtoGenreDropped | components/Statistics.tsx:26 | a book with genre "__proto__" occurs once, yet the object tally has no slot for it |
| BookDetail.AnalysisUpdate | components/BookDetail.tsx:25-32 | an update is produced exactly when the book has no analysis. It sets the analysis and the reply's genre and keeps every other field |
| BookDetail.AnalysisAttachedOnce | components/BookDetail.tsx:25 | once a book has its analysis, a further fetch produces no update |
| BookDetail.EditStatus | components/BookDetail.tsx:99 | the status edit sets the status and keeps every other field |
| BookDetail.EditProgress | components/BookDetail.tsx:114 | the progress edit stores the parsed number as is, or 0 when the input is not a number, and keeps every other field |
| BookDetail.EditsAndProgressRange | components/BookDetail.tsx:99-114 | the status edit and the analysis keep progress in range exactly when it was. The progress edit leaves it in range exactly when the entered number is between 0 and the page count, since nothing clamps it |
| BookDetail.ToHistory | components/BookDetail.tsx:59-62 | the history has one turn per message, in order, with its role and a single part holding its text |
| BookDetail.ReplyText | components/BookDetail.tsx:69 | the shown reply is never empty. It is the reply when that is non-empty and the fixed apology otherwise |
| BookDetail.SendKeepsAlternation | components/BookDetail.tsx:54-73 | a complete send keeps a user/model alternating transcript alternating and of even length |
| BookDetail.ChatSession.constructor | components/BookDetail.tsx:17-19 | a session starts with no messages, an empty input and no loading |
| BookDetail.ChatSession.TypeMessage | components/BookDetail.tsx:249 | the input takes the typed or suggested text; the book, the transcript and the loading flag are unchanged |
| BookDetail.ChatSession.SetBook | App.tsx:212-217 | after the store's update the open modal shows the new record. The transcript, input and loading flag are kept, since the modal stays mounted |
| BookDetail.ChatSession.StartSend | components/BookDetail.tsx:44-62 | blank input changes nothing and sends nothing. Otherwise the user message is appended, the input cleared and loading set. The request carries the book currently shown, the history of the transcript BEFORE the append, and the typed text |
| BookDetail.ChatSession.FinishSend | components/BookDetail.tsx:64-74 | the model message with the reply (or the apology) is appended and loading ends |
| BookDetail.ChatSession.Send | components/BookDetail.tsx:44-75 | a whole send appends exactly the user message and then the model message, empties the input and ends loading; blank input changes nothing |

## Left out

- Persistence: reading and writing the list under `biblio-books` in browser storage is not modelled. The stored string and the list it decodes to are constructor parameters. A stored string that is not valid JSON, which makes the parse throw, is not modelled.
- Clocks and randomness: `Date.now()` and `Math.random()` become parameters. So the model does not promise that ids are fresh or increasing. `App.PrependKeepsUniqueIds` takes freshness as a premise.
- services/geminiService.ts is not part of this model. The analysis, chat and recommendation calls become parameters (the AI reply or its text), and so do their own fallbacks.
- The recommendations panel (`generateRecs`, `recommendations`, `loadingRecs`) is not modelled. It only calls the AI service and shows its answer.
- `isLoadingAnalysis`, scrolling, tabs, the library/stats view switch, `BookCard` and all rendering are left out as presentation.
- BookDetail.AnalysisUpdate: the update is computed from the book the modal was opened with. The analysis effect runs once per book id (components/BookDetail.tsx:23-37) and keeps the update callback of the render that started it; that callback maps over the book list of that render (App.tsx:79) and sets the selected book (App.tsx:81). So a reply that arrives late writes back the list as it was when the request started, losing any book added (App.tsx:72) or edited in the meantime, and sets the selection again, which reopens a modal the user already closed (App.tsx:215). The model does not capture this, because it has no interleaving of asynchronous steps: each modelled update runs against the current state.
- BookDetail.ChatSession.StartSend: concurrent sends are not modelled, because there is no interleaving of asynchronous steps. The input is disabled while loading, and `Send` models one send with no event in between.
- BookDetail.ChatSession.FinishSend: the model message's id is a parameter. The source derives it from the clock plus one.
- BookDetail.AnalysisReply: the stored analysis object also carries the `genre` property that the service returns. The model keeps that genre only on the book.
- Statistics.SortByValue: it does not promise the engine's stable order among genres with equal counts, only largest-first order and permutation. So which of several tied genres makes the top five is not specified.
- Statistics.FirstOccurrences: it does not model JavaScript's rule that integer-like keys ("12") enumerate first, in numeric order.
- Numbers are unbounded integers. Floating point, NaN and `toLocaleString` formatting of the totals are not modelled. `parseInt` is modelled by its result, a number or no number.
- Statistics.CountGenres models the tally as a dictionary. The object literal, with the inherited members that the finding below shows, is modelled separately by `Statistics.JsGenreTally`.

## Findings

| source | as written | input that shows it | evidently intended | confidence | as-written member | corrected member |
|---|---|---|---|---|---|---|
| components/Statistics.tsx:24-28 | the genre tally reads and writes `acc[genre]` on a plain `{}` object, so a genre naming an `Object.prototype` member reads the inherited member | a book whose genre is "toString" gets a slot holding the function text with "1" appended; a book whose genre is "__proto__" gets no slot at all | every genre key counts its books as a number | not executed | Statistics.InheritedGenreMiscounted | Statistics.CountGenres |
