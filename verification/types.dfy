/**
 * The records of the book tracker (types.ts) and the one piece of string
 * handling the core relies on: JavaScript's `String.prototype.trim`, used to
 * decide whether a typed title, author or chat message is blank.
 */
module Types {

  datatype Option<T> = None | Some(value: T)

  /** Reading status of a book (types.ts:1-5). */
  datatype ReadingStatus = Reading | Completed | Tbr

  /** AI-derived annotation attached to a book (types.ts:7-13). */
  datatype BookAnalysis = BookAnalysis(
    summary: string,
    themes: seq<string>,
    mainCharacters: seq<string>,
    literaryStyle: string,
    moodColor: string)

  /**
   * One library entry (types.ts:15-26). JavaScript numbers are modelled as
   * unbounded integers; `analysis` and `genre` are the optional fields.
   */
  datatype Book = Book(
    id: string,
    title: string,
    author: string,
    status: ReadingStatus,
    totalPages: int,
    currentPage: int,
    coverPlaceholder: int,
    addedAt: int,
    analysis: Option<BookAnalysis>,
    genre: Option<string>)

  /**
   * The intended page invariant of a book: progress lies within the book.
   * Nothing in the code enforces it.
   */
  predicate ProgressInRange(b: Book) {
    0 <= b.currentPage <= b.totalPages
  }

  /** Author of a chat turn (types.ts:30). */
  datatype Role = User | Model

  /** One turn of a book-detail chat session (types.ts:28-33). */
  datatype ChatMessage = ChatMessage(id: string, role: Role, text: string, timestamp: int)

  /**
   * The characters `trim` removes: the ECMAScript WhiteSpace set (tab,
   * vertical tab, form feed, space, no-break space, byte order mark and the
   * Unicode space separators) and the LineTerminator set.
   */
  predicate IsJsWhitespace(c: char) {
    var n := c as int;
    n == 0x09 || n == 0x0A || n == 0x0B || n == 0x0C || n == 0x0D || n == 0x20 ||
    n == 0xA0 || n == 0x1680 || (0x2000 <= n <= 0x200A) || n == 0x2028 ||
    n == 0x2029 || n == 0x202F || n == 0x205F || n == 0x3000 || n == 0xFEFF
  }

  /** `s` with its leading whitespace removed. */
  function TrimStart(s: string): string {
    if s == [] || !IsJsWhitespace(s[0]) then s else TrimStart(s[1..])
  }

  /** `s` with its trailing whitespace removed. */
  function TrimEnd(s: string): string {
    if s == [] || !IsJsWhitespace(s[|s| - 1]) then s else TrimEnd(s[..|s| - 1])
  }

  /** `TrimStart` drops a whitespace prefix and stops at the first other character. */
  lemma {:induction false} TrimStartFacts(s: string)
    ensures var r := TrimStart(s);
            |r| <= |s| && r == s[|s| - |r|..] &&
            (r != [] ==> !IsJsWhitespace(r[0])) &&
            (forall i :: 0 <= i < |s| - |r| ==> IsJsWhitespace(s[i]))
  {
    if s != [] && IsJsWhitespace(s[0]) {
      TrimStartFacts(s[1..]);
      var r := TrimStart(s);
      assert forall i :: 1 <= i < |s| - |r| ==> s[i] == s[1..][i - 1];
    }
  }

  /** `TrimEnd` drops a whitespace suffix and stops at the last other character. */
  lemma {:induction false} TrimEndFacts(s: string)
    ensures var r := TrimEnd(s);
            |r| <= |s| && r == s[..|r|] &&
            (r != [] ==> !IsJsWhitespace(r[|r| - 1])) &&
            (forall i :: |r| <= i < |s| ==> IsJsWhitespace(s[i]))
  {
    if s != [] && IsJsWhitespace(s[|s| - 1]) {
      TrimEndFacts(s[..|s| - 1]);
    }
  }

  /** JavaScript's `s.trim()`. */
  function Trim(s: string): string {
    TrimEnd(TrimStart(s))
  }

  /** `!s.trim()`: the trimmed string is empty, hence falsy. */
  predicate IsBlank(s: string) {
    Trim(s) == []
  }

  /** A string is blank exactly when every one of its characters is whitespace. */
  lemma BlankIffAllWhitespace(s: string)
    ensures IsBlank(s) <==> forall i :: 0 <= i < |s| ==> IsJsWhitespace(s[i])
  {
    if IsBlank(s) {
      BlankOnlyWhitespace(s);
    }
    if forall i :: 0 <= i < |s| ==> IsJsWhitespace(s[i]) {
      WhitespaceTrimsAway(s);
    }
  }

  /** What trimming removed entirely was whitespace. */
  lemma BlankOnlyWhitespace(s: string)
    requires IsBlank(s)
    ensures forall i :: 0 <= i < |s| ==> IsJsWhitespace(s[i])
  {
    TrimStartFacts(s);
    TrimEndFacts(TrimStart(s));
  }

  /** A string of whitespace loses every character to `TrimStart`. */
  lemma {:induction false} WhitespaceTrimsAway(s: string)
    requires forall i :: 0 <= i < |s| ==> IsJsWhitespace(s[i])
    ensures TrimStart(s) == []
  {
    if s != [] {
      assert forall i :: 0 <= i < |s[1..]| ==> s[1..][i] == s[i + 1];
      WhitespaceTrimsAway(s[1..]);
    }
  }
}
