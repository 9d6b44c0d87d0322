/**
 * The reading statistics of components/Statistics.tsx: the per-status and
 * per-genre tallies (dictionaries filled in place by a left fold over the
 * list), the chart series derived from them, and the pages-read total.
 * Recursive definitions peel the LAST book, so that they follow the fold's
 * order and its loop invariant directly.
 */
module Statistics {
  import opened Types

  /** Genre under which books without one are counted. */
  const OtherGenre: string := "Otros"

  /** Number of genres the genre chart shows. */
  const TopGenreCount: nat := 5

  /* ---------------------------------------------------------------------- */
  /* Status tally                                                            */
  /* ---------------------------------------------------------------------- */

  /** Number of books with status `s`. */
  function StatusCount(books: seq<Book>, s: ReadingStatus): (n: nat)
    ensures n <= |books|
    ensures n > 0 <==> exists i :: 0 <= i < |books| && books[i].status == s
  {
    if books == [] then 0
    else
      var init := books[..|books| - 1];
      assert forall i :: 0 <= i < |init| ==> init[i] == books[i];
      StatusCount(init, s) + if books[|books| - 1].status == s then 1 else 0
  }

  /**
   * `counts` is the dictionary the status fold builds: a status is a key
   * exactly when some book has it, and its value is how many do.
   */
  ghost predicate TalliesStatuses(books: seq<Book>, counts: map<ReadingStatus, nat>) {
    forall s :: (s in counts <==> StatusCount(books, s) > 0) &&
                (s in counts ==> counts[s] == StatusCount(books, s))
  }

  /** `statusCounts`: the fold that bumps `acc[book.status]` for each book. */
  method CountStatuses(books: seq<Book>) returns (counts: map<ReadingStatus, nat>)
    ensures TalliesStatuses(books, counts)
  {
    counts := map[];
    var i := 0;
    while i < |books|
      invariant 0 <= i <= |books|
      invariant TalliesStatuses(books[..i], counts)
    {
      var s := books[i].status;
      assert books[..i + 1][..i] == books[..i];
      counts := counts[s := (if s in counts then counts[s] else 0) + 1];
      i := i + 1;
    }
    assert books[..i] == books;
  }

  /** `statusCounts[s] || 0`. */
  function CountOrZero(counts: map<ReadingStatus, nat>, s: ReadingStatus): nat {
    if s in counts then counts[s] else 0
  }

  /** Every book has exactly one status, so the three counts add up to the list length. */
  lemma {:induction false} StatusCountsSumToLength(books: seq<Book>)
    ensures StatusCount(books, Completed) + StatusCount(books, Reading) + StatusCount(books, Tbr) == |books|
  {
    if books != [] {
      StatusCountsSumToLength(books[..|books| - 1]);
    }
  }

  /**
   * The "Completados" figure, `statusCounts[COMPLETED] || 0`, is the number
   * of completed books, and 0 when there are none; the same lookup gives
   * every other status's count.
   */
  lemma LookupIsCount(books: seq<Book>, counts: map<ReadingStatus, nat>, s: ReadingStatus)
    requires TalliesStatuses(books, counts)
    ensures CountOrZero(counts, s) == StatusCount(books, s)
    ensures CountOrZero(counts, s) == 0 <==> forall i :: 0 <= i < |books| ==> books[i].status != s
  {
  }

  /* ---------------------------------------------------------------------- */
  /* Status chart series                                                     */
  /* ---------------------------------------------------------------------- */

  /** One pie-chart slice: label, value and colour. */
  datatype Slice = Slice(name: string, value: int, color: string)

  function StatusLabel(s: ReadingStatus): string {
    match s
    case Completed => "Leídos"
    case Reading => "Leyendo"
    case Tbr => "Por Leer"
  }

  function StatusColor(s: ReadingStatus): string {
    match s
    case Completed => "#059669"
    case Reading => "#d97706"
    case Tbr => "#64748b"
  }

  /** Position of a status in the fixed series order COMPLETED, READING, TBR. */
  function StatusRank(s: ReadingStatus): nat {
    match s
    case Completed => 0
    case Reading => 1
    case Tbr => 2
  }

  /** Position of a slice label in the series order; 3 for any other label. */
  function LabelRank(name: string): nat {
    if name == StatusLabel(Completed) then 0
    else if name == StatusLabel(Reading) then 1
    else if name == StatusLabel(Tbr) then 2
    else 3
  }

  /** The slice of status `s` before filtering. */
  function StatusSlice(counts: map<ReadingStatus, nat>, s: ReadingStatus): Slice {
    Slice(StatusLabel(s), CountOrZero(counts, s), StatusColor(s))
  }

  /** `.filter(d => d.value > 0)`. */
  function KeepPositive(slices: seq<Slice>): (r: seq<Slice>)
    ensures |r| <= |slices|
    ensures forall i :: 0 <= i < |r| ==> r[i].value > 0 && r[i] in slices
    ensures forall i :: 0 <= i < |slices| && slices[i].value > 0 ==> slices[i] in r
  {
    if slices == [] then []
    else if slices[0].value > 0 then [slices[0]] + KeepPositive(slices[1..])
    else KeepPositive(slices[1..])
  }

  /** A one-slice list kept when its value is positive. */
  function IfPositive(x: Slice): seq<Slice> {
    if x.value > 0 then [x] else []
  }

  /** The filter on a non-empty series decides its first slice, then filters the rest. */
  lemma KeepPositiveStep(slices: seq<Slice>)
    requires slices != []
    ensures KeepPositive(slices) == IfPositive(slices[0]) + KeepPositive(slices[1..])
  {
  }

  /** Filtering three slices keeps the positive ones in their order. */
  lemma KeepPositiveOfThree(a: Slice, b: Slice, c: Slice)
    ensures KeepPositive([a, b, c]) == IfPositive(a) + IfPositive(b) + IfPositive(c)
  {
    assert KeepPositive([c]) == IfPositive(c) by {
      KeepPositiveStep([c]);
      assert [c][1..] == [];
    }
    assert KeepPositive([b, c]) == IfPositive(b) + KeepPositive([c]) by {
      KeepPositiveStep([b, c]);
      assert [b, c][1..] == [c];
    }
    assert KeepPositive([a, b, c]) == IfPositive(a) + KeepPositive([b, c]) by {
      KeepPositiveStep([a, b, c]);
      assert [a, b, c][1..] == [b, c];
    }
    var pa, pb, pc := IfPositive(a), IfPositive(b), IfPositive(c);
    assert pa + (pb + pc) == pa + pb + pc;
  }

  /** `statusData`: the three status slices, zero counts filtered out. */
  function StatusData(counts: map<ReadingStatus, nat>): seq<Slice> {
    KeepPositive([StatusSlice(counts, Completed), StatusSlice(counts, Reading), StatusSlice(counts, Tbr)])
  }

  /** The status of a series position, the inverse of `StatusRank`. */
  function StatusAt(rank: nat): (s: ReadingStatus)
    requires rank < 3
    ensures StatusRank(s) == rank
  {
    if rank == 0 then Completed else if rank == 1 then Reading else Tbr
  }

  /**
   * `statusData` lists COMPLETED, READING and TBR in that order, keeping
   * those whose count is positive: every slice is the slice of the status
   * its label names, with a positive value, and labels appear in series
   * order.
   */
  lemma StatusDataOrdered(counts: map<ReadingStatus, nat>)
    ensures var r := StatusData(counts);
            |r| <= 3 &&
            (forall i :: 0 <= i < |r| ==>
               r[i].value > 0 && LabelRank(r[i].name) < 3 &&
               r[i] == StatusSlice(counts, StatusAt(LabelRank(r[i].name)))) &&
            (forall i, j :: 0 <= i < j < |r| ==> LabelRank(r[i].name) < LabelRank(r[j].name))
  {
    var sc, sd, st := StatusSlice(counts, Completed), StatusSlice(counts, Reading), StatusSlice(counts, Tbr);
    KeepPositiveOfThree(sc, sd, st);
    assert LabelRank(sc.name) == 0 && LabelRank(sd.name) == 1 && LabelRank(st.name) == 2;
  }

  /** A status has a slice in `statusData` exactly when its count is positive. */
  lemma StatusDataComplete(counts: map<ReadingStatus, nat>, s: ReadingStatus)
    ensures StatusSlice(counts, s) in StatusData(counts) <==> CountOrZero(counts, s) > 0
  {
    var sc, sd, st := StatusSlice(counts, Completed), StatusSlice(counts, Reading), StatusSlice(counts, Tbr);
    KeepPositiveOfThree(sc, sd, st);
    assert sc.name != sd.name && sc.name != st.name && sd.name != st.name;
  }

  /** Sum of the slice values. */
  function SliceTotal(slices: seq<Slice>): int {
    if slices == [] then 0 else slices[0].value + SliceTotal(slices[1..])
  }

  /** The slices of `statusData` add up to the three status counts. */
  lemma StatusDataTotal(counts: map<ReadingStatus, nat>)
    ensures SliceTotal(StatusData(counts)) ==
            CountOrZero(counts, Completed) + CountOrZero(counts, Reading) + CountOrZero(counts, Tbr)
  {
    var sc, sd, st := StatusSlice(counts, Completed), StatusSlice(counts, Reading), StatusSlice(counts, Tbr);
    KeepPositiveOfThree(sc, sd, st);
    var a, b, c := IfPositive(sc), IfPositive(sd), IfPositive(st);
    SliceTotalAppend(a, b);
    SliceTotalAppend(a + b, c);
    SliceTotalIfPositive(sc);
    SliceTotalIfPositive(sd);
    SliceTotalIfPositive(st);
  }

  /** A slice kept when positive contributes its value, zero or not. */
  lemma SliceTotalIfPositive(x: Slice)
    requires x.value >= 0
    ensures SliceTotal(IfPositive(x)) == x.value
  {
    if x.value > 0 {
      assert [x][1..] == [];
    }
  }

  /**
   * Against the book list: the slices of `statusData` show each status's
   * book count and together account for every book.
   */
  lemma StatusDataOfBooks(books: seq<Book>, counts: map<ReadingStatus, nat>)
    requires TalliesStatuses(books, counts)
    ensures SliceTotal(StatusData(counts)) == |books|
    ensures forall i :: 0 <= i < |StatusData(counts)| ==>
              exists s :: StatusData(counts)[i] == Slice(StatusLabel(s), StatusCount(books, s), StatusColor(s))
  {
    var r := StatusData(counts);
    StatusDataTotal(counts);
    StatusCountsSumToLength(books);
    LookupIsCount(books, counts, Completed);
    LookupIsCount(books, counts, Reading);
    LookupIsCount(books, counts, Tbr);
    StatusDataOrdered(counts);
    forall i | 0 <= i < |r|
      ensures exists s :: r[i] == Slice(StatusLabel(s), StatusCount(books, s), StatusColor(s))
    {
      var s := StatusAt(LabelRank(r[i].name));
      LookupIsCount(books, counts, s);
      assert r[i] == Slice(StatusLabel(s), StatusCount(books, s), StatusColor(s));
    }
  }

  lemma {:induction false} SliceTotalAppend(a: seq<Slice>, b: seq<Slice>)
    ensures SliceTotal(a + b) == SliceTotal(a) + SliceTotal(b)
  {
    if a == [] {
      assert a + b == b;
    } else {
      assert (a + b)[0] == a[0] && (a + b)[1..] == a[1..] + b;
      SliceTotalAppend(a[1..], b);
    }
  }

  /* ---------------------------------------------------------------------- */
  /* Genre tally                                                             */
  /* ---------------------------------------------------------------------- */

  /** `book.genre || 'Otros'`: a missing or empty genre counts as 'Otros'. */
  function GenreKey(b: Book): (g: string)
    ensures g != ""
    ensures b.genre.Some? && b.genre.value != "" ==> g == b.genre.value
    ensures b.genre.None? || b.genre.value == "" ==> g == OtherGenre
  {
    if b.genre.Some? && b.genre.value != "" then b.genre.value else OtherGenre
  }

  /** The genre key of every book, in list order. */
  function GenreKeys(books: seq<Book>): (r: seq<string>)
    ensures |r| == |books| && forall i :: 0 <= i < |books| ==> r[i] == GenreKey(books[i])
  {
    if books == [] then [] else GenreKeys(books[..|books| - 1]) + [GenreKey(books[|books| - 1])]
  }

  /** Number of occurrences of `g` in `xs`. */
  function Occurrences(xs: seq<string>, g: string): (n: nat)
    ensures n <= |xs|
    ensures n > 0 <==> g in xs
  {
    if xs == [] then 0
    else
      var init := xs[..|xs| - 1];
      assert xs == init + [xs[|xs| - 1]];
      Occurrences(init, g) + if xs[|xs| - 1] == g then 1 else 0
  }

  predicate Distinct(xs: seq<string>) {
    forall i, j :: 0 <= i < j < |xs| ==> xs[i] != xs[j]
  }

  /**
   * The keys of `xs` in order of first appearance: the key order of a
   * JavaScript object filled from `xs`.
   */
  function FirstOccurrences(xs: seq<string>): (r: seq<string>)
    ensures Distinct(r)
    ensures forall g :: g in r <==> g in xs
  {
    if xs == [] then []
    else
      var init := xs[..|xs| - 1];
      var prev := FirstOccurrences(init);
      assert xs == init + [xs[|xs| - 1]];
      if xs[|xs| - 1] in prev then prev else prev + [xs[|xs| - 1]]
  }

  /**
   * `keys` and `counts` are the dictionary the genre fold builds: the keys
   * in insertion order are the books' genre keys in order of first
   * appearance, and each key's value is how many books carry it.
   */
  ghost predicate TalliesGenres(books: seq<Book>, counts: map<string, nat>, keys: seq<string>) {
    TalliesKeys(GenreKeys(books), counts, keys)
  }

  /**
   * `keys` and `counts` are the dictionary a fold over the keys `xs`
   * builds: the keys in order of first appearance, each with its count.
   */
  ghost predicate TalliesKeys(xs: seq<string>, counts: map<string, nat>, keys: seq<string>) {
    keys == FirstOccurrences(xs) &&
    (forall g :: g in counts <==> g in keys) &&
    (forall g :: g in counts ==> counts[g] == Occurrences(xs, g))
  }

  /**
   * `genreCounts`: the fold that bumps `acc[genre]` for each book's genre
   * key. `keys` is the object's key order, which `Object.entries` follows.
   */
  method CountGenres(books: seq<Book>) returns (counts: map<string, nat>, keys: seq<string>)
    ensures TalliesGenres(books, counts, keys)
  {
    counts, keys := map[], [];
    var i := 0;
    assert TalliesGenres(books[..i], counts, keys);
    while i < |books|
      invariant 0 <= i <= |books|
      invariant TalliesGenres(books[..i], counts, keys)
    {
      var g := GenreKey(books[i]);
      TallyGenresStep(books, i, counts, keys);
      keys := if g in counts then keys else keys + [g];
      counts := counts[g := (if g in counts then counts[g] else 0) + 1];
      i := i + 1;
      assert TalliesGenres(books[..i], counts, keys);
    }
    assert books[..i] == books;
  }

  /** One step of the genre fold keeps the dictionary a tally of the books seen. */
  lemma TallyGenresStep(books: seq<Book>, i: int, counts: map<string, nat>, keys: seq<string>)
    requires 0 <= i < |books| && TalliesGenres(books[..i], counts, keys)
    ensures var g := GenreKey(books[i]);
            TalliesGenres(books[..i + 1], counts[g := (if g in counts then counts[g] else 0) + 1],
                          if g in counts then keys else keys + [g])
  {
    GenreKeysStep(books, i);
    TallyKeysStep(GenreKeys(books[..i]), GenreKey(books[i]), counts, keys);
  }

  /** The genre keys of one more book are the earlier keys and its own. */
  lemma GenreKeysStep(books: seq<Book>, i: int)
    requires 0 <= i < |books|
    ensures GenreKeys(books[..i + 1]) == GenreKeys(books[..i]) + [GenreKey(books[i])]
  {
    assert books[..i + 1][..i] == books[..i];
  }

  /**
   * Bumping the slot of one more key `g`, and appending `g` to the key
   * order when it is new, keeps the dictionary a tally of the keys seen.
   */
  lemma TallyKeysStep(xs: seq<string>, g: string, counts: map<string, nat>, keys: seq<string>)
    requires TalliesKeys(xs, counts, keys)
    ensures TalliesKeys(xs + [g], counts[g := (if g in counts then counts[g] else 0) + 1],
                        if g in counts then keys else keys + [g])
  {
    FirstOccurrencesStep(xs, g);
    OccurrencesStep(xs, g);
  }

  /** One more key joins the key order at the end exactly when it is new. */
  lemma FirstOccurrencesStep(xs: seq<string>, g: string)
    ensures FirstOccurrences(xs + [g]) ==
            if g in FirstOccurrences(xs) then FirstOccurrences(xs) else FirstOccurrences(xs) + [g]
  {
    assert (xs + [g])[..|xs + [g]| - 1] == xs;
  }

  /** One more key adds one to its own count and leaves the others. */
  lemma OccurrencesStep(xs: seq<string>, g: string)
    ensures forall h :: Occurrences(xs + [g], h) == Occurrences(xs, h) + if g == h then 1 else 0
  {
    assert (xs + [g])[..|xs + [g]| - 1] == xs;
  }

  /** Sum of `Occurrences(xs, k)` over the keys `ks`. */
  function SumOccurrences(ks: seq<string>, xs: seq<string>): nat {
    if ks == [] then 0
    else SumOccurrences(ks[..|ks| - 1], xs) + Occurrences(xs, ks[|ks| - 1])
  }

  lemma {:induction false} SumOccurrencesAppend(ks: seq<string>, xs: seq<string>, x: string)
    requires Distinct(ks)
    ensures SumOccurrences(ks, xs + [x]) == SumOccurrences(ks, xs) + if x in ks then 1 else 0
  {
    if ks != [] {
      var init := ks[..|ks| - 1];
      assert (xs + [x])[..|xs + [x]| - 1] == xs;
      assert ks == init + [ks[|ks| - 1]];
      SumOccurrencesAppend(init, xs, x);
    }
  }

  /** Each element of `xs` is counted once under its first-occurrence key. */
  lemma {:induction false} OccurrencesSumToLength(xs: seq<string>)
    ensures SumOccurrences(FirstOccurrences(xs), xs) == |xs|
  {
    if xs != [] {
      var init, x := xs[..|xs| - 1], xs[|xs| - 1];
      assert xs == init + [x];
      var d := FirstOccurrences(init);
      OccurrencesSumToLength(init);
      SumOccurrencesAppend(d, init, x);
      if x !in d {
        assert (d + [x])[..|d + [x]| - 1] == d;
      }
    }
  }

  /* ---------------------------------------------------------------------- */
  /* Genre chart series                                                      */
  /* ---------------------------------------------------------------------- */

  /** One bar of the genre chart. */
  datatype Entry = Entry(name: string, value: int)

  /** `Object.entries(genreCounts).map(([name, value]) => ({ name, value }))`. */
  function GenreEntries(keys: seq<string>, counts: map<string, nat>): (r: seq<Entry>)
    requires forall k :: k in keys ==> k in counts
    ensures |r| == |keys|
    ensures forall i :: 0 <= i < |keys| ==> r[i].name == keys[i] && r[i].value == counts[keys[i]]
  {
    if keys == [] then []
    else GenreEntries(keys[..|keys| - 1], counts) + [Entry(keys[|keys| - 1], counts[keys[|keys| - 1]])]
  }

  function EntryTotal(es: seq<Entry>): int {
    if es == [] then 0 else EntryTotal(es[..|es| - 1]) + es[|es| - 1].value
  }

  lemma {:induction false} EntryTotalIsSumOccurrences(books: seq<Book>, counts: map<string, nat>, ks: seq<string>)
    requires forall k :: k in ks ==> k in counts && counts[k] == Occurrences(GenreKeys(books), k)
    ensures EntryTotal(GenreEntries(ks, counts)) == SumOccurrences(ks, GenreKeys(books))
  {
    if ks != [] {
      var init := ks[..|ks| - 1];
      assert forall k :: k in init ==> k in ks;
      EntryTotalIsSumOccurrences(books, counts, init);
      var es := GenreEntries(ks, counts);
      assert es[..|es| - 1] == GenreEntries(init, counts);
    }
  }

  /**
   * Every book is counted exactly once in `genreCounts`, those without a
   * genre under 'Otros', so the entries' values add up to the list length.
   */
  lemma GenreCountsSumToLength(books: seq<Book>, counts: map<string, nat>, keys: seq<string>)
    requires TalliesGenres(books, counts, keys)
    ensures EntryTotal(GenreEntries(keys, counts)) == |books|
  {
    EntryTotalIsSumOccurrences(books, counts, keys);
    OccurrencesSumToLength(GenreKeys(books));
  }

  /** The entries are ordered by value, largest first. */
  predicate NonIncreasing(es: seq<Entry>) {
    forall i, j :: 0 <= i < j < |es| ==> es[i].value >= es[j].value
  }

  /** Inserts `e` into a non-increasing list ahead of the entries with its value. */
  function Insert(e: Entry, sorted: seq<Entry>): (r: seq<Entry>)
    requires NonIncreasing(sorted)
    ensures NonIncreasing(r)
    ensures multiset(r) == multiset(sorted) + multiset{e}
  {
    if sorted == [] then [e]
    else if e.value >= sorted[0].value then
      assert multiset([e] + sorted) == multiset{e} + multiset(sorted);
      [e] + sorted
    else
      var head, tail := sorted[0], sorted[1..];
      var rest := Insert(e, tail);
      assert sorted == [head] + tail;
      InsertBelowHead(head, e, tail, rest);
      assert multiset([head] + rest) == multiset{head} + multiset(rest);
      [head] + rest
  }

  /** Inserting below `head` keeps `head` first. */
  lemma InsertBelowHead(head: Entry, e: Entry, tail: seq<Entry>, rest: seq<Entry>)
    requires e.value < head.value && forall x :: x in tail ==> x.value <= head.value
    requires multiset(rest) == multiset(tail) + multiset{e} && NonIncreasing(rest)
    ensures NonIncreasing([head] + rest)
  {
    var r := [head] + rest;
    forall i, j | 0 <= i < j < |r|
      ensures r[i].value >= r[j].value
    {
      if i == 0 {
        var x := rest[j - 1];
        assert x in multiset(rest);
        if x != e {
          assert x in multiset(tail);
        }
      } else {
        assert r[i] == rest[i - 1] && r[j] == rest[j - 1];
      }
    }
  }

  /**
   * `.sort((a, b) => b.value - a.value)`: a stable sort by value, largest
   * first. Only the order and the permutation are specified; the order of
   * equal values is not.
   */
  function SortByValue(es: seq<Entry>): (r: seq<Entry>)
    ensures NonIncreasing(r)
    ensures multiset(r) == multiset(es)
  {
    if es == [] then []
    else
      assert es == [es[0]] + es[1..];
      Insert(es[0], SortByValue(es[1..]))
  }

  /** `.slice(0, 5)`. */
  function TakeTop(es: seq<Entry>): (r: seq<Entry>)
    ensures |r| == if |es| < TopGenreCount then |es| else TopGenreCount
    ensures r == es[..|r|]
  {
    if |es| < TopGenreCount then es else es[..TopGenreCount]
  }

  /** `genreData`: the genre entries, largest first, cut to the top five. */
  function GenreData(keys: seq<string>, counts: map<string, nat>): seq<Entry>
    requires forall k :: k in keys ==> k in counts
  {
    TakeTop(SortByValue(GenreEntries(keys, counts)))
  }

  /** `genreData` holds the five largest entries, or all when there are fewer. */
  lemma GenreDataSize(keys: seq<string>, counts: map<string, nat>)
    requires Distinct(keys) && forall g :: g in counts <==> g in keys
    ensures |GenreData(keys, counts)| == if |counts| < TopGenreCount then |counts| else TopGenreCount
  {
    DistinctKeysCount(keys, counts);
  }

  /** Each `genreData` entry is a key of the dictionary with its exact count. */
  lemma GenreDataCounts(keys: seq<string>, counts: map<string, nat>)
    requires forall g :: g in counts <==> g in keys
    ensures forall e :: e in GenreData(keys, counts) ==> e.name in counts && e.value == counts[e.name]
  {
    var sorted := SortByValue(GenreEntries(keys, counts));
    var r := TakeTop(sorted);
    SortedEntriesMatchTally(keys, counts, sorted);
    forall e | e in r
      ensures e.name in counts && e.value == counts[e.name]
    {
      var j :| 0 <= j < |r| && r[j] == e;
      assert sorted[j] == e;
    }
  }

  /**
   * `genreData` is ordered by count, largest first, and no key left out of
   * it has a larger count than one shown.
   */
  lemma GenreDataTop(keys: seq<string>, counts: map<string, nat>)
    requires forall g :: g in counts <==> g in keys
    ensures NonIncreasing(GenreData(keys, counts))
    ensures forall g :: g in counts && (forall e :: e in GenreData(keys, counts) ==> e.name != g) ==>
              forall e :: e in GenreData(keys, counts) ==> counts[g] <= e.value
  {
    var sorted := SortByValue(GenreEntries(keys, counts));
    var r := TakeTop(sorted);
    forall g | g in counts && (forall e :: e in r ==> e.name != g)
      ensures forall e :: e in r ==> counts[g] <= e.value
    {
      TopLeavesOutSmaller(keys, counts, sorted, r, g);
    }
  }

  /** A key missing from a leading slice of the sorted entries is no larger than any of them. */
  lemma TopLeavesOutSmaller(keys: seq<string>, counts: map<string, nat>, sorted: seq<Entry>, r: seq<Entry>, g: string)
    requires forall k :: k in keys ==> k in counts
    requires multiset(sorted) == multiset(GenreEntries(keys, counts)) && NonIncreasing(sorted)
    requires |r| <= |sorted| && r == sorted[..|r|] && g in keys
    requires forall e :: e in r ==> e.name != g
    ensures forall e :: e in r ==> counts[g] <= e.value
  {
    assert forall j :: 0 <= j < |r| ==> sorted[j] == r[j] && sorted[j].name != g;
    LeftOutIsSmaller(keys, counts, sorted, |r|, g);
  }

  /** `genreData` never shows the same genre twice. */
  lemma GenreDataDistinct(keys: seq<string>, counts: map<string, nat>)
    requires Distinct(keys) && forall k :: k in keys ==> k in counts
    ensures forall i, j :: 0 <= i < j < |GenreData(keys, counts)| ==>
              GenreData(keys, counts)[i].name != GenreData(keys, counts)[j].name
  {
    var sorted := SortByValue(GenreEntries(keys, counts));
    var r := TakeTop(sorted);
    forall i, j | 0 <= i < j < |r|
      ensures r[i].name != r[j].name
    {
      SortedNamesDiffer(keys, counts, sorted, i, j);
    }
  }

  /** Two positions of a sorting of the genre entries carry different genres. */
  lemma SortedNamesDiffer(keys: seq<string>, counts: map<string, nat>, sorted: seq<Entry>, i: int, j: int)
    requires Distinct(keys) && forall k :: k in keys ==> k in counts
    requires multiset(sorted) == multiset(GenreEntries(keys, counts))
    requires 0 <= i < j < |sorted|
    ensures sorted[i].name != sorted[j].name
  {
    var es := GenreEntries(keys, counts);
    SortedEntriesMatchTally(keys, counts, sorted);
    assert sorted[i] in sorted && sorted[j] in sorted;
    DistinctNamesOnce(es, sorted[i]);
    RepeatedEntryTwice(sorted, i, j);
  }

  /** In a list whose names are distinct, every entry occurs at most once. */
  lemma {:induction false} DistinctNamesOnce(es: seq<Entry>, e: Entry)
    requires forall i, j :: 0 <= i < j < |es| ==> es[i].name != es[j].name
    ensures multiset(es)[e] <= 1
  {
    if es != [] {
      var init, last := es[..|es| - 1], es[|es| - 1];
      assert es == init + [last];
      assert forall k :: 0 <= k < |init| ==> init[k] == es[k];
      DistinctNamesOnce(init, e);
      if last == e {
        assert forall k :: 0 <= k < |init| ==> init[k].name != e.name;
        assert e !in init;
      }
    }
  }

  /** An entry found at two positions occurs at least twice. */
  lemma RepeatedEntryTwice(s: seq<Entry>, i: int, j: int)
    requires 0 <= i < j < |s|
    ensures s[i] == s[j] ==> multiset(s)[s[i]] >= 2
  {
    assert s == s[..j] + [s[j]] + s[j + 1..];
    assert s[..j][i] == s[i];
    assert s[i] in multiset(s[..j]);
  }

  /**
   * Against the book list: each `genreData` entry shows how many books
   * carry that genre key.
   */
  lemma GenreDataOfBooks(books: seq<Book>, counts: map<string, nat>, keys: seq<string>)
    requires TalliesGenres(books, counts, keys)
    ensures forall e :: e in GenreData(keys, counts) ==>
              e.value == Occurrences(GenreKeys(books), e.name) > 0
  {
    GenreDataCounts(keys, counts);
  }

  /** Sorting the entries keeps each one a genre of the tally with its count. */
  lemma SortedEntriesMatchTally(keys: seq<string>, counts: map<string, nat>, sorted: seq<Entry>)
    requires forall k :: k in keys ==> k in counts
    requires multiset(sorted) == multiset(GenreEntries(keys, counts))
    ensures forall e :: e in sorted ==> e.name in keys && e.name in counts && e.value == counts[e.name]
  {
    var es := GenreEntries(keys, counts);
    forall e | e in sorted
      ensures e.name in keys && e.name in counts && e.value == counts[e.name]
    {
      assert e in multiset(es);
      var i :| 0 <= i < |es| && es[i] == e;
    }
  }

  /**
   * In a non-increasing arrangement of the entries, a genre whose entry is
   * not among the first `n` has a count no larger than any of them.
   */
  lemma LeftOutIsSmaller(keys: seq<string>, counts: map<string, nat>, sorted: seq<Entry>, n: nat, g: string)
    requires forall k :: k in keys ==> k in counts
    requires multiset(sorted) == multiset(GenreEntries(keys, counts)) && NonIncreasing(sorted)
    requires n <= |sorted| && g in keys
    requires forall j :: 0 <= j < n ==> sorted[j].name != g
    ensures forall j :: 0 <= j < n ==> counts[g] <= sorted[j].value
  {
    var es := GenreEntries(keys, counts);
    var i :| 0 <= i < |keys| && keys[i] == g;
    assert es[i] in multiset(es);
    assert es[i] in multiset(sorted);
    var m :| 0 <= m < |sorted| && sorted[m] == es[i];
    assert sorted[m].name == g && sorted[m].value == counts[g];
  }

  /** A tally's key list has as many entries as the dictionary has keys. */
  lemma DistinctKeysCount(keys: seq<string>, counts: map<string, nat>)
    requires Distinct(keys) && forall g :: g in counts <==> g in keys
    ensures |counts| == |keys|
  {
    assert counts.Keys == set k | k in keys;
    DistinctCardinality(keys);
  }

  lemma {:induction false} DistinctCardinality(keys: seq<string>)
    requires Distinct(keys)
    ensures |set k | k in keys| == |keys|
  {
    if keys != [] {
      var init := keys[..|keys| - 1];
      var last := keys[|keys| - 1];
      DistinctCardinality(init);
      assert (set k | k in keys) == (set k | k in init) + {last};
      assert last !in (set k | k in init);
    }
  }

  /* ---------------------------------------------------------------------- */
  /* Pages read                                                              */
  /* ---------------------------------------------------------------------- */

  /** What one book adds to the pages-read total. */
  function PagesOf(b: Book): int {
    if b.status == Completed then b.totalPages
    else if b.status == Reading then b.currentPage
    else 0
  }

  /** `totalPages`: the fold adding each book's contribution. */
  function PagesRead(books: seq<Book>): int {
    if books == [] then 0 else PagesRead(books[..|books| - 1]) + PagesOf(books[|books| - 1])
  }

  /** The books of `books` with status `s`, in order. */
  function WithStatus(books: seq<Book>, s: ReadingStatus): (r: seq<Book>)
    ensures |r| == StatusCount(books, s)
    ensures forall i :: 0 <= i < |r| ==> r[i].status == s && r[i] in books
  {
    if books == [] then []
    else
      var init := WithStatus(books[..|books| - 1], s);
      if books[|books| - 1].status == s then init + [books[|books| - 1]] else init
  }

  /** Sum of `totalPages` over a list. */
  function SumTotalPages(books: seq<Book>): int {
    if books == [] then 0 else SumTotalPages(books[..|books| - 1]) + books[|books| - 1].totalPages
  }

  /** Sum of `currentPage` over a list. */
  function SumCurrentPages(books: seq<Book>): int {
    if books == [] then 0 else SumCurrentPages(books[..|books| - 1]) + books[|books| - 1].currentPage
  }

  /**
   * The pages-read total is the full length of every completed book plus
   * the current page of every book being read; to-read books add nothing.
   */
  lemma {:induction false} PagesReadSplit(books: seq<Book>)
    ensures PagesRead(books) ==
            SumTotalPages(WithStatus(books, Completed)) + SumCurrentPages(WithStatus(books, Reading))
  {
    if books != [] {
      var init, last := books[..|books| - 1], books[|books| - 1];
      PagesReadSplit(init);
      var c, d := WithStatus(init, Completed), WithStatus(init, Reading);
      if last.status == Completed {
        assert (c + [last])[..|c + [last]| - 1] == c;
      } else if last.status == Reading {
        assert (d + [last])[..|d + [last]| - 1] == d;
      }
    }
  }

  /** The total over a concatenation is the sum of the totals. */
  lemma {:induction false} PagesReadAppend(a: seq<Book>, b: seq<Book>)
    ensures PagesRead(a + b) == PagesRead(a) + PagesRead(b)
  {
    if b == [] {
      assert a + b == a;
    } else {
      var bi := b[..|b| - 1];
      assert (a + b)[..|a + b| - 1] == a + bi && (a + b)[|a + b| - 1] == b[|b| - 1];
      PagesReadAppend(a, bi);
    }
  }

  /**
   * When every book's progress lies within the book, the total is between
   * 0 and the sum of the page counts of the books that are not to-read.
   */
  lemma {:induction false} PagesReadBounds(books: seq<Book>)
    requires forall i :: 0 <= i < |books| ==> ProgressInRange(books[i])
    ensures 0 <= PagesRead(books)
    ensures PagesRead(books) <= SumTotalPages(books) - SumTotalPages(WithStatus(books, Tbr))
  {
    if books != [] {
      var init := books[..|books| - 1];
      var t := WithStatus(init, Tbr);
      assert forall i :: 0 <= i < |init| ==> init[i] == books[i];
      PagesReadBounds(init);
      if books[|books| - 1].status == Tbr {
        assert (t + [books[|books| - 1]])[..|t + [books[|books| - 1]]| - 1] == t;
      }
    }
  }

  /* ---------------------------------------------------------------------- */
  /* The genre tally as written, on a JavaScript object literal              */
  /* ---------------------------------------------------------------------- */

  /**
   * What a slot of the genre object holds after `(acc[g] || 0) + 1`: a
   * number, or a string when the addition concatenated.
   */
  datatype JsValue = Num(n: int) | Text(s: string)

  /** The members every object literal inherits from `Object.prototype`. */
  const InheritedMembers: set<string> := {
    "constructor", "hasOwnProperty", "isPrototypeOf", "propertyIsEnumerable",
    "toLocaleString", "toString", "valueOf", "__proto__",
    "__defineGetter__", "__defineSetter__", "__lookupGetter__", "__lookupSetter__" }

  /**
   * `acc[g]` on an object created by `{}`: its own slot, else the inherited
   * member, else undefined. An inherited member is represented by its string
   * conversion, which is what `+ 1` uses; the function text is
   * engine-defined and only its being non-empty matters here.
   */
  function JsLookup(acc: map<string, JsValue>, g: string): Option<JsValue> {
    if g in acc then Some(acc[g])
    else if g == "__proto__" then Some(Text("[object Object]"))
    else if g in InheritedMembers then Some(Text("function " + g + "() { [native code] }"))
    else None
  }

  /** `(v || 0) + 1`: undefined, 0 and "" are falsy; a string concatenates. */
  function JsBump(v: Option<JsValue>): JsValue {
    match v
    case None => Num(1)
    case Some(Num(n)) => Num(n + 1)
    case Some(Text(t)) => if t == "" then Num(1) else Text(t + "1")
  }

  /** `acc[g] = v`: the `__proto__` setter ignores a value that is not an object. */
  function JsStore(acc: map<string, JsValue>, g: string, v: JsValue): map<string, JsValue> {
    if g == "__proto__" then acc else acc[g := v]
  }

  /** `genreCounts` exactly as the source computes it on an object literal. */
  function JsGenreTally(books: seq<Book>): map<string, JsValue> {
    if books == [] then map[]
    else
      var acc := JsGenreTally(books[..|books| - 1]);
      var g := GenreKey(books[|books| - 1]);
      JsStore(acc, g, JsBump(JsLookup(acc, g)))
  }

  /**
   * The object tally `t` has a numeric slot for exactly the keys of `xs`,
   * each holding that key's number of occurrences.
   */
  ghost predicate JsAgrees(t: map<string, JsValue>, xs: seq<string>) {
    (forall g :: g in t <==> g in xs) &&
    (forall g :: g in t ==> t[g] == Num(Occurrences(xs, g)))
  }

  /**
   * Away from the inherited member names, the object tally is the
   * dictionary `CountGenres` computes: one numeric slot per genre key,
   * holding the number of books that carry it.
   */
  lemma {:induction false} JsTallyAgreesOffPrototype(books: seq<Book>)
    requires forall b :: b in books ==> GenreKey(b) !in InheritedMembers
    ensures JsAgrees(JsGenreTally(books), GenreKeys(books))
  {
    if books != [] {
      var init := books[..|books| - 1];
      assert forall b :: b in init ==> b in books;
      JsTallyAgreesOffPrototype(init);
      var g := GenreKey(books[|books| - 1]);
      JsAgreesStep(JsGenreTally(init), GenreKeys(init), g);
      assert GenreKeys(books) == GenreKeys(init) + [g];
    }
  }

  /** One step of the object tally on an ordinary key keeps it in agreement. */
  lemma JsAgreesStep(acc: map<string, JsValue>, xs: seq<string>, g: string)
    requires JsAgrees(acc, xs) && g !in InheritedMembers
    ensures JsAgrees(JsStore(acc, g, JsBump(JsLookup(acc, g))), xs + [g])
  {
    JsStepOrdinary(acc, g, Occurrences(xs, g));
    OccurrencesStep(xs, g);
    var r := acc[g := Num(Occurrences(xs, g) + 1)];
    forall h | h in r
      ensures r[h] == Num(Occurrences(xs + [g], h))
    {
      if h != g {
        assert r[h] == acc[h];
      }
    }
  }

  /** One step of the object tally on an ordinary key adds one to its number. */
  lemma JsStepOrdinary(acc: map<string, JsValue>, g: string, n: nat)
    requires g !in InheritedMembers
    requires g in acc ==> acc[g] == Num(n)
    requires g !in acc ==> n == 0
    ensures JsStore(acc, g, JsBump(JsLookup(acc, g))) == acc[g := Num(n + 1)]
  {
  }

  /**
   * A book whose genre is "toString" is counted once, but its slot holds
   * the concatenated function text instead of the number 1.
   */
  lemma InheritedGenreMiscounted(b: Book)
    requires b.genre == Some("toString")
    ensures Occurrences(GenreKeys([b]), "toString") == 1
    ensures "toString" in JsGenreTally([b]) && JsGenreTally([b])["toString"].Text?
  {
    assert [b][..0] == [];
    assert GenreKeys([b]) == [] + ["toString"];
  }

  /** A book whose genre is "__proto__" is counted once but gets no slot at all. */
  lemma ProtoGenreDropped(b: Book)
    requires b.genre == Some("__proto__")
    ensures Occurrences(GenreKeys([b]), "__proto__") == 1
    ensures "__proto__" !in JsGenreTally([b])
  {
    assert [b][..0] == [];
    assert GenreKeys([b]) == [] + ["__proto__"];
  }
}
