/**
 * The book-detail session of components/BookDetail.tsx: attaching the AI
 * analysis to a book that has none, the status and progress edits (record
 * updates handed to the store's update), and the chat transcript that a
 * send extends with the user's message and the model's reply. The AI calls
 * themselves are outside the model: their results are parameters.
 */
module BookDetail {
  import opened Types

  /** What the analysis call returns: the analysis and a genre beside it. */
  datatype AnalysisReply = AnalysisReply(analysis: BookAnalysis, genre: string)

  /** Text shown in place of an empty chat reply. */
  const EmptyReplyText: string := "No pude generar una respuesta."

  /* ---------------------------------------------------------------------- */
  /* Analysis and edits                                                      */
  /* ---------------------------------------------------------------------- */

  /**
   * `fetchAnalysis`: a book without an analysis is handed back with the
   * reply's analysis and its genre in place of the book's own; a book that
   * has one produces no update (and no request).
   */
  function AnalysisUpdate(book: Book, reply: AnalysisReply): (r: Option<Book>)
    ensures r.Some? <==> book.analysis.None?
    ensures r.Some? ==> r.value.analysis == Some(reply.analysis) && r.value.genre == Some(reply.genre)
    ensures r.Some? ==> r.value.(analysis := book.analysis, genre := book.genre) == book
  {
    if book.analysis.None? then Some(book.(analysis := Some(reply.analysis), genre := Some(reply.genre)))
    else None
  }

  /** A book that has received its analysis is never updated by the effect again. */
  lemma AnalysisAttachedOnce(book: Book, first: AnalysisReply, second: AnalysisReply)
    requires book.analysis.None?
    ensures AnalysisUpdate(book, first).Some?
    ensures AnalysisUpdate(AnalysisUpdate(book, first).value, second).None?
  {
  }

  /** The status selector: the book with `status` replaced. */
  function EditStatus(book: Book, status: ReadingStatus): (r: Book)
    ensures r.status == status && r.(status := book.status) == book
  {
    book.(status := status)
  }

  /**
   * The progress input: `parseInt(value) || 0`. `parsed` is the parsed
   * integer, or nothing when the input is not numeric; the value is stored
   * as is, without clamping to the page count.
   */
  function EditProgress(book: Book, parsed: Option<int>): (r: Book)
    ensures parsed.Some? ==> r.currentPage == parsed.value
    ensures parsed.None? ==> r.currentPage == 0
    ensures r.(currentPage := book.currentPage) == book
  {
    book.(currentPage := if parsed.Some? then parsed.value else 0)
  }

  /**
   * Which edits keep a book's progress within its page count: the status
   * edit and the analysis always do; the progress edit exactly when the
   * entered number lies in range, since it is not clamped.
   */
  lemma EditsAndProgressRange(book: Book, status: ReadingStatus, parsed: Option<int>, reply: AnalysisReply)
    ensures ProgressInRange(EditStatus(book, status)) <==> ProgressInRange(book)
    ensures AnalysisUpdate(book, reply).Some? ==>
              (ProgressInRange(AnalysisUpdate(book, reply).value) <==> ProgressInRange(book))
    ensures ProgressInRange(EditProgress(book, parsed)) <==>
              var page := if parsed.Some? then parsed.value else 0;
              0 <= page <= book.totalPages
  {
  }

  /* ---------------------------------------------------------------------- */
  /* Chat                                                                    */
  /* ---------------------------------------------------------------------- */

  /** `{ text }`, one part of a history turn. */
  datatype Part = Part(text: string)

  /** `{ role, parts }`, one turn of the history handed to the chat call. */
  datatype HistoryTurn = HistoryTurn(role: Role, parts: seq<Part>)

  /** The arguments of the chat call: the book, the prior turns and the new message. */
  datatype ChatRequest = ChatRequest(book: Book, history: seq<HistoryTurn>, message: string)

  /** `messages.map(m => ({ role: m.role, parts: [{ text: m.text }] }))`. */
  function ToHistory(messages: seq<ChatMessage>): (h: seq<HistoryTurn>)
    ensures |h| == |messages|
    ensures forall i :: 0 <= i < |messages| ==>
              h[i].role == messages[i].role && h[i].parts == [Part(messages[i].text)]
  {
    if messages == [] then []
    else ToHistory(messages[..|messages| - 1]) + [HistoryTurn(messages[|messages| - 1].role, [Part(messages[|messages| - 1].text)])]
  }

  /** `responseText || "No pude generar una respuesta."`. */
  function ReplyText(reply: Option<string>): (t: string)
    ensures t != ""
    ensures reply.Some? && reply.value != "" ==> t == reply.value
    ensures reply.None? || reply.value == "" ==> t == EmptyReplyText
  {
    if reply.Some? && reply.value != "" then reply.value else EmptyReplyText
  }

  /**
   * The transcript alternates: user messages at even positions, model
   * messages at odd ones.
   */
  predicate Alternating(messages: seq<ChatMessage>) {
    forall i :: 0 <= i < |messages| ==> messages[i].role == if i % 2 == 0 then User else Model
  }

  /**
   * A complete send appends a user turn and a model turn, so a transcript
   * that alternates and has even length keeps both properties.
   */
  lemma SendKeepsAlternation(messages: seq<ChatMessage>, user: ChatMessage, model: ChatMessage)
    requires Alternating(messages) && |messages| % 2 == 0
    requires user.role == User && model.role == Model
    ensures Alternating(messages + [user, model]) && |messages + [user, model]| % 2 == 0
  {
    var r := messages + [user, model];
    forall i | 0 <= i < |r|
      ensures r[i].role == if i % 2 == 0 then User else Model
    {
      if i == |messages| {
        assert r[i] == user;
      } else if i == |messages| + 1 {
        assert r[i] == model && i % 2 == 1;
      } else {
        assert r[i] == messages[i];
      }
    }
  }

  /**
   * The chat state of one open detail modal: the book it shows, the
   * transcript, the input box and the loading flag. A send is split at its
   * one `await`: `StartSend` runs up to the chat call and returns its
   * arguments, `FinishSend` receives the reply.
   */
  class ChatSession {
    var book: Book
    var messages: seq<ChatMessage>
    var inputMessage: string
    var isChatLoading: bool

    /** Opening the modal starts an empty session. */
    constructor (book: Book)
      ensures this.book == book
      ensures messages == [] && inputMessage == "" && !isChatLoading
    {
      this.book := book;
      messages := [];
      inputMessage := "";
      isChatLoading := false;
    }

    /** Typing in the input box, or picking one of the suggested questions. */
    method TypeMessage(text: string)
      modifies this
      ensures inputMessage == text
      ensures book == old(book) && messages == old(messages) && isChatLoading == old(isChatLoading)
    {
      inputMessage := text;
    }

    /**
     * The store's update re-renders the open modal with the updated record
     * as its `book`: the modal stays mounted, so the transcript, the input
     * and the loading flag are kept, and later sends use the new record.
     */
    method SetBook(book: Book)
      modifies this
      ensures this.book == book
      ensures messages == old(messages) && inputMessage == old(inputMessage)
      ensures isChatLoading == old(isChatLoading)
    {
      this.book := book;
    }

    /**
     * `handleSendMessage` up to the chat call. Blank input is ignored.
     * Otherwise the user message (text as typed, `id` and `now` from the
     * clock) is appended, the input cleared and the loading flag set; the
     * request carries the history of the transcript as it was BEFORE the
     * append, and the message text.
     */
    method StartSend(id: string, now: int) returns (request: Option<ChatRequest>)
      modifies this
      ensures book == old(book)
      ensures IsBlank(old(inputMessage)) ==>
                request.None? && messages == old(messages) &&
                inputMessage == old(inputMessage) && isChatLoading == old(isChatLoading)
      ensures !IsBlank(old(inputMessage)) ==>
                request == Some(ChatRequest(book, ToHistory(old(messages)), old(inputMessage))) &&
                messages == old(messages) + [ChatMessage(id, User, old(inputMessage), now)] &&
                inputMessage == "" && isChatLoading
    {
      if IsBlank(inputMessage) {
        return None;
      }
      var userMsg := ChatMessage(id, User, inputMessage, now);
      var history := ToHistory(messages);
      messages := messages + [userMsg];
      inputMessage := "";
      isChatLoading := true;
      request := Some(ChatRequest(book, history, userMsg.text));
    }

    /**
     * `handleSendMessage` after the chat call: the model message, with the
     * fallback text for an empty reply, is appended and loading ends.
     */
    method FinishSend(reply: Option<string>, id: string, now: int)
      modifies this
      ensures book == old(book)
      ensures messages == old(messages) + [ChatMessage(id, Model, ReplyText(reply), now)]
      ensures inputMessage == old(inputMessage) && !isChatLoading
    {
      var aiMsg := ChatMessage(id, Model, ReplyText(reply), now);
      messages := messages + [aiMsg];
      isChatLoading := false;
    }

    /**
     * A whole send with no other event in between: blank input changes
     * nothing; otherwise exactly two messages are appended, the user's and
     * then the model's, the input is empty and loading is over.
     */
    method Send(userId: string, userTime: int, reply: Option<string>, modelId: string, modelTime: int)
      returns (request: Option<ChatRequest>)
      modifies this
      ensures book == old(book)
      ensures IsBlank(old(inputMessage)) ==>
                request.None? && messages == old(messages) &&
                inputMessage == old(inputMessage) && isChatLoading == old(isChatLoading)
      ensures !IsBlank(old(inputMessage)) ==>
                request == Some(ChatRequest(book, ToHistory(old(messages)), old(inputMessage))) &&
                messages == old(messages) + [ChatMessage(userId, User, old(inputMessage), userTime),
                                             ChatMessage(modelId, Model, ReplyText(reply), modelTime)] &&
                inputMessage == "" && !isChatLoading
    {
      request := StartSend(userId, userTime);
      if request.Some? {
        FinishSend(reply, modelId, modelTime);
      }
    }
  }
}
