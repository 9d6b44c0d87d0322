/**
 * The book collection store of App.tsx: the list of books and the state of
 * the add form and detail modal, updated by `handleAddBook`,
 * `handleUpdateBook` and the per-card status callback. The new lists are
 * pure functions of the old one (a prepend, a `map`, a `find`); the store
 * itself is a class whose methods replace its fields.
 */
module App {
  import opened Types

  /** Page count given to a newly added book until the user edits it. */
  const DefaultTotalPages: int := 300

  /** Time offset, in milliseconds, of the second seed book's `addedAt`. */
  const SecondSeedAge: int := 100000

  /** No two books of the list share an id. */
  predicate UniqueIds(books: seq<Book>) {
    forall i, j :: 0 <= i < j < |books| ==> books[i].id != books[j].id
  }

  /** Some book of the list carries `id`. */
  predicate HasId(books: seq<Book>, id: string) {
    exists i :: 0 <= i < |books| && books[i].id == id
  }

  /**
   * The two sample books used when nothing is stored; `now` stands for the
   * clock reading that stamps their `addedAt`. The source reads the clock
   * once per book, a moment apart; one reading stands for both here.
   */
  function SeedBooks(now: int): (r: seq<Book>)
    ensures |r| == 2 && UniqueIds(r)
    ensures r[0].status == Completed && r[1].status == Reading
    ensures forall i :: 0 <= i < |r| ==> ProgressInRange(r[i]) && r[i].analysis.None? && r[i].genre.Some?
  {
    [ Book("1", "Cien años de soledad", "Gabriel García Márquez", Completed, 417, 417, 1, now,
           None, Some("Realismo Mágico")),
      Book("2", "Dune", "Frank Herbert", Reading, 896, 342, 2, now - SecondSeedAge,
           None, Some("Ciencia Ficción")) ]
  }

  /**
   * The book `handleAddBook` creates. `id` is the decimal clock string,
   * `cover` the random cover number and `now` the clock reading of
   * `addedAt`; the source reads the clock twice, so `id` and `now` are
   * independent parameters.
   */
  function NewBook(id: string, title: string, author: string, cover: int, now: int): (r: Book)
    ensures r.status == Tbr && r.currentPage == 0 && r.totalPages == DefaultTotalPages
    ensures r.analysis.None? && r.genre.None? && ProgressInRange(r)
    ensures r.id == id && r.title == title && r.author == author
    ensures r.coverPlaceholder == cover && r.addedAt == now
  {
    Book(id, title, author, Tbr, DefaultTotalPages, 0, cover, now, None, None)
  }

  /**
   * `books.map(b => b.id === updated.id ? updated : b)`: every book whose
   * id matches is replaced by `updated`, every other one is kept in place.
   */
  function ReplaceById(books: seq<Book>, updated: Book): (r: seq<Book>)
    ensures |r| == |books|
    ensures forall i :: 0 <= i < |books| && books[i].id == updated.id ==> r[i] == updated
    ensures forall i :: 0 <= i < |books| && books[i].id != updated.id ==> r[i] == books[i]
  {
    if books == [] then []
    else
      var rest := ReplaceById(books[1..], updated);
      [if books[0].id == updated.id then updated else books[0]] + rest
  }

  /**
   * `books.find(b => b.id === id)`: the first book carrying `id`, or
   * nothing when no book does.
   */
  function FindById(books: seq<Book>, id: string): (r: Option<Book>)
    ensures r.None? <==> !HasId(books, id)
    ensures r.Some? ==> exists k :: 0 <= k < |books| && books[k] == r.value && books[k].id == id &&
                                    forall j :: 0 <= j < k ==> books[j].id != id
  {
    if books == [] then None
    else if books[0].id == id then Some(books[0])
    else
      var r := FindById(books[1..], id);
      if r.Some? then
        var k :| 1 <= k + 1 < |books| && books[1..][k] == r.value && books[1..][k].id == id &&
                 forall j :: 0 <= j < k ==> books[1..][j].id != id;
        assert books[k + 1] == r.value && forall j :: 0 <= j < k + 1 ==> books[j].id != id;
        r
      else
        assert forall i :: 1 <= i < |books| ==> books[i] == books[1..][i - 1];
        r
  }

  /** The ids of a list, in order. */
  function Ids(books: seq<Book>): (r: seq<string>)
    ensures |r| == |books| && forall i :: 0 <= i < |books| ==> r[i] == books[i].id
  {
    if books == [] then [] else [books[0].id] + Ids(books[1..])
  }

  /** An update never changes which ids the list holds nor where they stand. */
  lemma ReplaceKeepsIds(books: seq<Book>, updated: Book)
    ensures Ids(ReplaceById(books, updated)) == Ids(books)
  {
  }

  /** Updating with an id that is not in the list leaves the list unchanged. */
  lemma ReplaceAbsentIsIdentity(books: seq<Book>, updated: Book)
    requires !HasId(books, updated.id)
    ensures ReplaceById(books, updated) == books
  {
  }

  /**
   * With unique ids, updating the book at position `k` changes that one
   * position and nothing else.
   */
  lemma ReplaceUniqueIsPointUpdate(books: seq<Book>, k: int, updated: Book)
    requires UniqueIds(books) && 0 <= k < |books| && books[k].id == updated.id
    ensures ReplaceById(books, updated) == books[k := updated]
  {
    var r := ReplaceById(books, updated);
    forall i | 0 <= i < |books|
      ensures r[i] == books[k := updated][i]
    {
      if i != k {
        assert books[i].id != updated.id by {
          if i < k { assert books[i].id != books[k].id; } else { assert books[k].id != books[i].id; }
        }
      }
    }
  }

  /** Updating twice with the same record is the same as updating once. */
  lemma ReplaceIdempotent(books: seq<Book>, updated: Book)
    ensures ReplaceById(ReplaceById(books, updated), updated) == ReplaceById(books, updated)
  {
  }

  /** An update keeps the ids unique. */
  lemma ReplaceKeepsUniqueIds(books: seq<Book>, updated: Book)
    requires UniqueIds(books)
    ensures UniqueIds(ReplaceById(books, updated))
  {
    ReplaceKeepsIds(books, updated);
    var r := ReplaceById(books, updated);
    forall i, j | 0 <= i < j < |r|
      ensures r[i].id != r[j].id
    {
      assert r[i].id == Ids(r)[i] == Ids(books)[i] && r[j].id == Ids(r)[j] == Ids(books)[j];
    }
  }

  /**
   * Prepending a book whose id is new keeps the ids unique; the source does
   * not check freshness, so this is all that can be said.
   */
  lemma PrependKeepsUniqueIds(b: Book, books: seq<Book>)
    requires UniqueIds(books) && !HasId(books, b.id)
    ensures UniqueIds([b] + books)
  {
    var r := [b] + books;
    forall i, j | 0 <= i < j < |r|
      ensures r[i].id != r[j].id
    {
      if i == 0 {
        assert r[j] == books[j - 1];
      } else {
        assert r[i] == books[i - 1] && r[j] == books[j - 1];
      }
    }
  }

  /**
   * The card's status callback looks the id up and hands the first match,
   * with its new status, to the update. Every book carrying that id ends
   * up as that copy; every other book is kept.
   */
  lemma StatusUpdateFromCard(books: seq<Book>, id: string, status: ReadingStatus)
    requires HasId(books, id)
    ensures FindById(books, id).Some?
    ensures var first := FindById(books, id).value;
            var r := ReplaceById(books, first.(status := status));
            |r| == |books| &&
            (forall i :: 0 <= i < |books| && books[i].id == id ==> r[i] == first.(status := status)) &&
            (forall i :: 0 <= i < |books| && books[i].id != id ==> r[i] == books[i])
  {
  }

  /**
   * With unique ids the card's status callback changes only the `status`
   * field of the one book carrying `id`.
   */
  lemma StatusUpdateChangesOnlyStatus(books: seq<Book>, k: int, status: ReadingStatus)
    requires UniqueIds(books) && 0 <= k < |books|
    ensures FindById(books, books[k].id) == Some(books[k])
    ensures ReplaceById(books, books[k].(status := status)) == books[k := books[k].(status := status)]
  {
    var found := FindById(books, books[k].id);
    var j :| 0 <= j < |books| && books[j] == found.value && books[j].id == books[k].id &&
             forall i :: 0 <= i < j ==> books[i].id != books[k].id;
    assert j == k;
    ReplaceUniqueIsPointUpdate(books, k, books[k].(status := status));
  }

  /**
   * The store of App.tsx: the book list, the book shown in the detail
   * modal, the add modal's visibility and the add form's two inputs.
   * Persistence to browser storage is left out; the constructor receives
   * what was read from it.
   */
  class Library {
    var books: seq<Book>
    var selectedBook: Option<Book>
    var isAddModalOpen: bool
    var newTitle: string
    var newAuthor: string

    /**
     * Initial state. `saved` is the raw stored entry under `biblio-books` (or
     * nothing) and `decoded` the list it deserializes to; an absent or empty
     * entry is falsy and selects the seed list.
     */
    constructor (saved: Option<string>, decoded: seq<Book>, now: int)
      ensures saved.None? || saved.value == "" ==> books == SeedBooks(now)
      ensures saved.Some? && saved.value != "" ==> books == decoded
      ensures selectedBook == None && !isAddModalOpen && newTitle == "" && newAuthor == ""
    {
      books := if saved.Some? && saved.value != "" then decoded else SeedBooks(now);
      selectedBook := None;
      isAddModalOpen := false;
      newTitle := "";
      newAuthor := "";
    }

    /** The "add book" buttons open the modal. */
    method OpenAddModal()
      modifies this
      ensures isAddModalOpen
      ensures books == old(books) && selectedBook == old(selectedBook)
      ensures newTitle == old(newTitle) && newAuthor == old(newAuthor)
    {
      isAddModalOpen := true;
    }

    /** The modal's close and cancel buttons hide it and keep what was typed. */
    method CloseAddModal()
      modifies this
      ensures !isAddModalOpen
      ensures books == old(books) && selectedBook == old(selectedBook)
      ensures newTitle == old(newTitle) && newAuthor == old(newAuthor)
    {
      isAddModalOpen := false;
    }

    /** Typing in the title input. */
    method TypeTitle(text: string)
      modifies this
      ensures newTitle == text
      ensures books == old(books) && selectedBook == old(selectedBook)
      ensures isAddModalOpen == old(isAddModalOpen) && newAuthor == old(newAuthor)
    {
      newTitle := text;
    }

    /** Typing in the author input. */
    method TypeAuthor(text: string)
      modifies this
      ensures newAuthor == text
      ensures books == old(books) && selectedBook == old(selectedBook)
      ensures isAddModalOpen == old(isAddModalOpen) && newTitle == old(newTitle)
    {
      newAuthor := text;
    }

    /** Clicking a card opens its detail modal; closing the modal clears it. */
    method Select(book: Option<Book>)
      modifies this
      ensures selectedBook == book
      ensures books == old(books) && isAddModalOpen == old(isAddModalOpen)
      ensures newTitle == old(newTitle) && newAuthor == old(newAuthor)
    {
      selectedBook := book;
    }

    /**
     * `handleAddBook`: refused when the trimmed title or author is empty;
     * otherwise the new to-read book, with title and author exactly as
     * typed, goes in front of the list, the inputs are emptied and the
     * modal closes.
     */
    method AddBook(id: string, cover: int, now: int)
      modifies this
      ensures IsBlank(old(newTitle)) || IsBlank(old(newAuthor)) ==>
                books == old(books) && newTitle == old(newTitle) && newAuthor == old(newAuthor) &&
                isAddModalOpen == old(isAddModalOpen)
      ensures !IsBlank(old(newTitle)) && !IsBlank(old(newAuthor)) ==>
                books == [NewBook(id, old(newTitle), old(newAuthor), cover, now)] + old(books) &&
                newTitle == "" && newAuthor == "" && !isAddModalOpen
      ensures selectedBook == old(selectedBook)
    {
      var refused := IsBlank(newTitle) || IsBlank(newAuthor);
      if !refused {
        books, newTitle, newAuthor, isAddModalOpen :=
          [NewBook(id, newTitle, newAuthor, cover, now)] + books, "", "", false;
      }
    }

    /**
     * `handleUpdateBook`: the record with the matching id is replaced and
     * the detail modal shows the argument, whether or not its id was found.
     */
    method UpdateBook(updated: Book)
      modifies this
      ensures books == ReplaceById(old(books), updated)
      ensures selectedBook == Some(updated)
      ensures isAddModalOpen == old(isAddModalOpen)
      ensures newTitle == old(newTitle) && newAuthor == old(newAuthor)
    {
      books := ReplaceById(books, updated);
      selectedBook := Some(updated);
    }

    /**
     * The status callback App.tsx hands to each book card: when a book
     * carries `id`, the first one, with the new status, goes through
     * `UpdateBook`, which would also set the detail selection; otherwise
     * nothing happens. The card component receives the callback but never
     * invokes it, so no user event reaches this operation.
     */
    method UpdateStatus(id: string, status: ReadingStatus)
      modifies this
      ensures !HasId(old(books), id) ==> books == old(books) && selectedBook == old(selectedBook)
      ensures HasId(old(books), id) ==>
                var first := FindById(old(books), id).value;
                books == ReplaceById(old(books), first.(status := status)) &&
                selectedBook == Some(first.(status := status))
      ensures isAddModalOpen == old(isAddModalOpen)
      ensures newTitle == old(newTitle) && newAuthor == old(newAuthor)
    {
      var found := FindById(books, id);
      if found.Some? {
        UpdateBook(found.value.(status := status));
      }
    }
  }
}
