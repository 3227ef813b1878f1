/**
 * The interview engine of `backend/src/connections/dbQdrant.ts`: choosing the
 * next question (`getNextQuestion`), extracting the scorecard text from the
 * analysis reply (`getAnalysis`) and classifying a candidate's reply
 * (`classifyUserAnswer`).
 *
 * The vector index and the language model are outside the model. The points
 * the index scroll returns are an input, and the language model is a
 * `Generator`: a function from the request it is sent to the text of its
 * reply. Every operation returns, beside its outcome, the requests it sent,
 * in order, so that "no request is sent" and "a second request is sent only
 * when ..." can be stated.
 */
module Engine {
  import opened Wrappers
  import opened JsString

  /** One earlier turn of the interview: the question asked and the stored response, if any. */
  datatype Turn = Turn(query: string, response: Option<string>)

  /** One point of the scroll result; `content` is the point's `payload?.content`. */
  datatype Point = Point(content: Option<string>)

  datatype Phase = Rapport | Technical

  /**
   * A request to the language model, reduced to the data it embeds (its
   * wording is not modelled). The personal-background prompt carries the
   * history only; the technical prompt carries the résumé context as well.
   */
  datatype Prompt =
    | RapportPrompt(history: string)
    | TechnicalPrompt(resume: string, history: string)
    | AnalysisPrompt(transcript: string)
    | ClassifyPrompt(query: string, answer: string)
    | RephrasePrompt(query: string)

  /** The errors the engine throws. */
  datatype Error = NoDataFound | NoQuestionGenerated | NoResponse | RephraseMissing
  {
    /** The `message` of the thrown error. */
    function Message(): (m: string)
      ensures m != []
    {
      match this
      case NoDataFound => "No data found"
      case NoQuestionGenerated => "No question generated"
      case NoResponse => "No response"
      // `text!.trim()` on a reply without text: the runtime's TypeError
      case RephraseMissing => "Cannot read properties of undefined (reading 'trim')"
    }
  }

  /** The language model: the `text` of its reply to a request, `None` when the reply has none. */
  type Generator = Prompt -> Option<string>

  /** The outcome of one engine operation and the requests it sent to the language model, in order. */
  datatype Step<T> = Step(result: Result<T, Error>, calls: seq<Prompt>)

  // ---------------------------------------------------------------------------
  // Phase selection
  // ---------------------------------------------------------------------------

  /** The longest history for which the next question is still a personal-background one. */
  const RapportLimit: nat := 4

  function SelectPhase(historyLength: nat): Phase {
    if historyLength <= RapportLimit then Rapport else Technical
  }

  /** The boundary: a history of four turns still gets a personal question, five turns a technical one. */
  lemma PhaseBoundary()
    ensures SelectPhase(0) == Rapport && SelectPhase(4) == Rapport && SelectPhase(5) == Technical
  {
  }

  /** Once technical, always technical: a longer history never brings the interview back to rapport. */
  lemma PhaseMonotone(m: nat, n: nat)
    requires m <= n
    ensures SelectPhase(m) == Technical ==> SelectPhase(n) == Technical
    ensures SelectPhase(n) == Rapport ==> SelectPhase(m) == Rapport
  {
  }

  // ---------------------------------------------------------------------------
  // The transcript formatter (used by getNextQuestion and getAnalysis alike)
  // ---------------------------------------------------------------------------

  /** `item.response || ""`: a missing response prints as the empty string. */
  function ResponseText(t: Turn): string {
    match t.response
    case Some(r) => r
    case None => ""
  }

  function QuestionLine(n: nat, t: Turn): string {
    "Q" + Decimal(n) + ": " + t.query
  }

  function AnswerLine(n: nat, t: Turn): string {
    "A" + Decimal(n) + ": " + ResponseText(t)
  }

  /** The block of the turn numbered `n`: its question line and its answer line. */
  function Block(n: nat, t: Turn): string {
    QuestionLine(n, t) + "\n" + AnswerLine(n, t)
  }

  /** One block per turn, numbered from 1. */
  function Blocks(turns: seq<Turn>): (r: seq<string>)
    ensures |r| == |turns|
  {
    seq(|turns|, i requires 0 <= i < |turns| => Block(i + 1, turns[i]))
  }

  /** The Q/A history of the prompts: the blocks joined by newlines. */
  function FormatHistory(turns: seq<Turn>): string {
    Join(Blocks(turns), "\n")
  }

  /** The lines of the history: the question line and then the answer line of each turn. */
  function Lines(turns: seq<Turn>): (r: seq<string>)
    ensures |r| == 2 * |turns|
  {
    seq(2 * |turns|, j requires 0 <= j < 2 * |turns| =>
      if j % 2 == 0 then QuestionLine(j / 2 + 1, turns[j / 2]) else AnswerLine(j / 2 + 1, turns[j / 2]))
  }

  /** No question and no response contains a line break. */
  predicate SingleLine(turns: seq<Turn>) {
    forall i :: 0 <= i < |turns| ==> '\n' !in turns[i].query && '\n' !in ResponseText(turns[i])
  }

  /** The history is the newline join of its lines. */
  lemma {:induction false} HistoryIsLines(turns: seq<Turn>)
    ensures FormatHistory(turns) == Join(Lines(turns), "\n")
  {
    var blocks, lines := Blocks(turns), Lines(turns);
    forall i | 0 <= i < |blocks| ensures blocks[i] == lines[2 * i] + "\n" + lines[2 * i + 1] {
      assert (2 * i) / 2 == i && (2 * i + 1) / 2 == i;
    }
    JoinPairs(blocks, lines, "\n");
  }

  /** An empty history prints as the empty string; any other begins with `Q1: `. */
  lemma HistoryStart(turns: seq<Turn>)
    ensures turns == [] <==> FormatHistory(turns) == ""
    ensures turns != [] ==> FormatHistory(turns)[..4] == "Q1: "
  {
    if turns != [] {
      var b := Blocks(turns);
      assert b[0] == Block(1, turns[0]);
      assert Decimal(1) == "1";
      assert b[0][..4] == "Q1: ";
      JoinPrefix(b, "\n");
    }
  }

  lemma {:induction false} JoinPrefix(parts: seq<string>, sep: string)
    requires |parts| >= 1
    ensures |Join(parts, sep)| >= |parts[0]| && Join(parts, sep)[..|parts[0]|] == parts[0]
  {
  }

  /** A new turn adds exactly one block, numbered one past the existing turns. */
  lemma {:induction false} HistoryAppend(turns: seq<Turn>, t: Turn)
    requires turns != []
    ensures FormatHistory(turns + [t]) == FormatHistory(turns) + "\n" + Block(|turns| + 1, t)
  {
    assert Blocks(turns + [t]) == Blocks(turns) + [Block(|turns| + 1, t)];
    JoinAppend(Blocks(turns), Block(|turns| + 1, t), "\n");
  }

  lemma {:induction false} JoinAppend(parts: seq<string>, x: string, sep: string)
    requires parts != []
    ensures Join(parts + [x], sep) == Join(parts, sep) + sep + x
  {
    if |parts| > 1 {
      assert (parts + [x])[1..] == parts[1..] + [x];
      JoinAppend(parts[1..], x, sep);
    }
  }

  lemma {:induction false} LinesSingle(turns: seq<Turn>)
    requires SingleLine(turns)
    ensures forall j :: 0 <= j < |Lines(turns)| ==> '\n' !in Lines(turns)[j]
  {
    forall j | 0 <= j < |Lines(turns)| ensures '\n' !in Lines(turns)[j] {
      var d := Decimal(j / 2 + 1);
      assert forall k :: 0 <= k < |d| ==> d[k] != '\n';
    }
  }

  lemma PrefixCancel(p: string, x: string, y: string)
    requires p + x == p + y
    ensures x == y
  {
    assert x == (p + x)[|p|..];
    assert y == (p + y)[|p|..];
  }

  /**
   * The history determines its turns when no question or response spans
   * several lines: two histories that print the same have the same questions
   * and the same response texts, in the same order.
   */
  lemma {:induction false} HistoryDeterminesTurns(a: seq<Turn>, b: seq<Turn>)
    requires SingleLine(a) && SingleLine(b)
    requires FormatHistory(a) == FormatHistory(b)
    ensures |a| == |b|
    ensures forall i :: 0 <= i < |a| ==> a[i].query == b[i].query && ResponseText(a[i]) == ResponseText(b[i])
  {
    HistoryStart(a);
    HistoryStart(b);
    if a != [] && b != [] {
      HistoryIsLines(a);
      HistoryIsLines(b);
      LinesSingle(a);
      LinesSingle(b);
      SplitJoin(Lines(a), '\n');
      SplitJoin(Lines(b), '\n');
      assert Lines(a) == Lines(b);
      forall i | 0 <= i < |a| ensures a[i].query == b[i].query && ResponseText(a[i]) == ResponseText(b[i]) {
        SameLinesSameTurn(a, b, i);
      }
    }
  }

  lemma {:induction false} SameLinesSameTurn(a: seq<Turn>, b: seq<Turn>, i: nat)
    requires Lines(a) == Lines(b) && i < |a|
    ensures |a| == |b|
    ensures a[i].query == b[i].query && ResponseText(a[i]) == ResponseText(b[i])
  {
    assert (2 * i) / 2 == i && (2 * i) % 2 == 0;
    assert (2 * i + 1) / 2 == i && (2 * i + 1) % 2 == 1;
    assert Lines(a)[2 * i] == QuestionLine(i + 1, a[i]);
    assert Lines(b)[2 * i] == QuestionLine(i + 1, b[i]);
    PrefixCancel("Q" + Decimal(i + 1) + ": ", a[i].query, b[i].query);
    assert Lines(a)[2 * i + 1] == AnswerLine(i + 1, a[i]);
    assert Lines(b)[2 * i + 1] == AnswerLine(i + 1, b[i]);
    PrefixCancel("A" + Decimal(i + 1) + ": ", ResponseText(a[i]), ResponseText(b[i]));
  }

  /**
   * Without that restriction the order of the turns is not recoverable: a
   * question that itself contains the text of an answer line and the next
   * question line makes two different orders print the same history.
   */
  lemma HistoryOrderCollision()
    ensures var x, y := Turn("", Some("")), Turn("\nA1: \nQ2: ", Some(""));
      x != y && FormatHistory([x, y]) == FormatHistory([y, x])
  {
    var q := "\nA1: \nQ2: ";
    CollisionOrders(q);
    assert q == "\nA1: " + "\n" + "Q2: ";
    ReorderEqual("Q1: ", "\nA1: ", "\n", "Q2: ", q, "\nA2: ");
  }

  /** The two orders of an empty turn and a turn asking `q`. */
  lemma CollisionOrders(q: string)
    ensures var x, y := Turn("", Some("")), Turn(q, Some(""));
      && FormatHistory([x, y]) == "Q1: " + "\nA1: " + "\n" + "Q2: " + q + "\nA2: "
      && FormatHistory([y, x]) == "Q1: " + q + "\nA1: " + "\n" + "Q2: " + "\nA2: "
  {
    var x, y := Turn("", Some("")), Turn(q, Some(""));
    SmallDecimals();
    TwoTurnHistory(x, y);
    TwoTurnHistory(y, x);
    FirstBlock(x);
    FirstBlock(y);
    SecondBlock(x);
    SecondBlock(y);
  }

  lemma FirstBlock(t: Turn)
    ensures Block(1, t) == "Q1: " + t.query + "\nA1: " + ResponseText(t)
  {
    SmallDecimals();
  }

  lemma SecondBlock(t: Turn)
    ensures Block(2, t) == "Q2: " + t.query + "\nA2: " + ResponseText(t)
  {
    SmallDecimals();
  }

  /** Moving a text past a copy of itself changes nothing. */
  lemma ReorderEqual(p: string, a: string, b: string, c: string, q: string, e: string)
    requires q == a + b + c
    ensures p + a + b + c + q + e == p + q + a + b + c + e
  {
    assert p + a + b + c == p + q;
    assert p + q + a + b + c == p + q + q;
  }

  /** A history of two turns is their two blocks around one newline. */
  lemma TwoTurnHistory(x: Turn, y: Turn)
    ensures FormatHistory([x, y]) == Block(1, x) + "\n" + Block(2, y)
  {
    assert Blocks([x, y]) == [Block(1, x), Block(2, y)];
    JoinTwo(Block(1, x), Block(2, y), "\n");
  }

  lemma SmallDecimals()
    ensures Decimal(1) == "1" && Decimal(2) == "2"
  {
    assert DigitChar(1) == '1' && DigitChar(2) == '2';
  }

  lemma JoinTwo(a: string, b: string, sep: string)
    ensures Join([a, b], sep) == a + sep + b
  {
    assert [a, b][1..] == [b];
  }

  // ---------------------------------------------------------------------------
  // The résumé context
  // ---------------------------------------------------------------------------

  /** A point's payload content; `join` prints a missing one as the empty string. */
  function ChunkText(p: Point): string {
    match p.content
    case Some(c) => c
    case None => ""
  }

  function ChunkTexts(points: seq<Point>): (r: seq<string>)
    ensures |r| == |points|
  {
    seq(|points|, i requires 0 <= i < |points| => ChunkText(points[i]))
  }

  /** The context of the scrolled points, or "No data found" when the scroll returned none. */
  function RetrieveContext(points: seq<Point>): (r: Result<string, Error>)
    ensures r.Failure? <==> points == []
    ensures r.Failure? ==> r.error == NoDataFound
  {
    if |points| == 0 then Failure(NoDataFound) else Success(Join(ChunkTexts(points), "\n"))
  }

  /** The context holds the chunks in scroll order: splitting it at newlines gives them back when none spans lines. */
  lemma ContextChunks(points: seq<Point>)
    requires points != []
    requires forall i :: 0 <= i < |points| ==> '\n' !in ChunkText(points[i])
    ensures RetrieveContext(points).Success?
    ensures Split(RetrieveContext(points).value, '\n') == ChunkTexts(points)
  {
    SplitJoin(ChunkTexts(points), '\n');
  }

  // ---------------------------------------------------------------------------
  // getNextQuestion
  // ---------------------------------------------------------------------------

  /** `response.text?.trim()`, failing with "No question generated" when nothing is left. */
  function PostProcessQuestion(text: Option<string>): (r: Result<string, Error>)
    ensures r.Success? <==> text.Some? && !AllSpace(text.value)
    ensures r.Failure? ==> r.error == NoQuestionGenerated
    ensures r.Success? ==> r.value != [] && NoOuterSpace(r.value) && PaddedBy(text.value, r.value)
  {
    match text
    case None => Failure(NoQuestionGenerated)
    case Some(t) =>
      var q := Trim(t);
      if q == [] then Failure(NoQuestionGenerated) else Success(q)
  }

  /** The request `getNextQuestion` sends for a history, given the résumé context. */
  function QuestionPrompt(context: string, history: seq<Turn>): (r: Prompt)
    ensures (r.RapportPrompt? || r.TechnicalPrompt?) && r.history == FormatHistory(history)
    ensures r.RapportPrompt? <==> |history| <= 4
    ensures r.TechnicalPrompt? ==> r.resume == context
  {
    match SelectPhase(|history|)
    case Rapport => RapportPrompt(FormatHistory(history))
    case Technical => TechnicalPrompt(context, FormatHistory(history))
  }

  /**
   * `getNextQuestion`: the scroll comes first and an empty one fails before
   * any request; otherwise exactly one request is sent, a personal one for a
   * history of at most four turns and a technical one with the context after
   * that, and its trimmed reply is the question.
   */
  function NextQuestion(points: seq<Point>, history: seq<Turn>, gen: Generator): (r: Step<string>)
    ensures points == [] ==> r == Step(Failure(NoDataFound), [])
    ensures points != [] ==>
      && |r.calls| == 1 && (r.calls[0].RapportPrompt? || r.calls[0].TechnicalPrompt?)
      && r.calls[0].history == FormatHistory(history)
    ensures points != [] ==> (r.calls[0].RapportPrompt? <==> |history| <= 4)
    ensures points != [] ==> (r.calls[0].TechnicalPrompt? ==> Success(r.calls[0].resume) == RetrieveContext(points))
    ensures points != [] ==> (r.result.Success? <==> gen(r.calls[0]).Some? && !AllSpace(gen(r.calls[0]).value))
    ensures points != [] && r.result.Failure? ==> r.result.error == NoQuestionGenerated
    ensures r.result.Success? ==>
      && r.result.value != [] && NoOuterSpace(r.result.value)
      && PaddedBy(gen(r.calls[0]).value, r.result.value)
  {
    match RetrieveContext(points)
    case Failure(e) => Step(Failure(e), [])
    case Success(context) =>
      var prompt := QuestionPrompt(context, history);
      Step(PostProcessQuestion(gen(prompt)), [prompt])
  }

  // ---------------------------------------------------------------------------
  // getAnalysis: the fenced-block extractor
  // ---------------------------------------------------------------------------

  const Fence: string := "```"

  /** An opening fence "```json" at `p`, with the letters of `json` in any case. */
  predicate JsonOpenerAt(s: string, p: nat) {
    p + 7 <= |s| && s[p..p + 3] == Fence && EqualsIgnoringCase(s[p + 3..p + 7], "json")
  }

  /** Where the body of a "```json" fence at `p` begins: after the white space that follows the opener. */
  function JsonBodyStart(s: string, p: nat): nat
    requires JsonOpenerAt(s, p)
  {
    SkipSpace(s, p + 7)
  }

  /** /```json\s*([\s\S]*?)```/i matches at `p`: an opener there and a closing fence after it. */
  predicate JsonMatchAt(s: string, p: nat) {
    JsonOpenerAt(s, p) && IndexOfFrom(s, Fence, JsonBodyStart(s, p)).Some?
  }

  /** /```([\s\S]*?)```/i matches at `p`: a fence there and another after it. */
  predicate PlainMatchAt(s: string, p: nat) {
    OccursAt(s, Fence, p) && IndexOfFrom(s, Fence, p + 3).Some?
  }

  /** The captured group of the json pattern matching at `p`: everything up to the first closing fence. */
  function JsonBody(s: string, p: nat): string
    requires JsonMatchAt(s, p)
  {
    s[JsonBodyStart(s, p)..IndexOfFrom(s, Fence, JsonBodyStart(s, p)).value]
  }

  function PlainBody(s: string, p: nat): string
    requires PlainMatchAt(s, p)
  {
    s[p + 3..IndexOfFrom(s, Fence, p + 3).value]
  }

  /** The leftmost position at or after `from` where the json pattern matches. */
  function FirstJsonMatch(s: string, from: nat): (r: Option<nat>)
    ensures r.Some? ==> from <= r.value && JsonMatchAt(s, r.value)
    ensures r.Some? ==> forall q :: from <= q < r.value ==> !JsonMatchAt(s, q)
    ensures r.None? ==> forall q: nat :: from <= q ==> !JsonMatchAt(s, q)
    decreases |s| - from
  {
    if from + 7 > |s| then None
    else if JsonMatchAt(s, from) then Some(from)
    else FirstJsonMatch(s, from + 1)
  }

  /** The leftmost position at or after `from` where the plain pattern matches. */
  function FirstPlainMatch(s: string, from: nat): (r: Option<nat>)
    ensures r.Some? ==> from <= r.value && PlainMatchAt(s, r.value)
    ensures r.Some? ==> forall q :: from <= q < r.value ==> !PlainMatchAt(s, q)
    ensures r.None? ==> forall q: nat :: from <= q ==> !PlainMatchAt(s, q)
    decreases |s| - from
  {
    if from + 3 > |s| then None
    else if PlainMatchAt(s, from) then Some(from)
    else FirstPlainMatch(s, from + 1)
  }

  /**
   * The text `getAnalysis` hands to the JSON parser: "No response" for a reply
   * without text, else the body of the first "```json" fence, else the body
   * of the first fence of any kind, else the reply unchanged.
   */
  function ExtractJson(text: Option<string>): Result<string, Error> {
    if text.None? || text.value == "" then Failure(NoResponse)
    else
      var t := text.value;
      match FirstJsonMatch(t, 0)
      case Some(p) => Success(JsonBody(t, p))
      case None =>
        match FirstPlainMatch(t, 0)
        case Some(p) => Success(PlainBody(t, p))
        case None => Success(t)
  }

  /** The text contains two fences that do not overlap. */
  ghost predicate HasTwoFences(t: string) {
    exists p: nat, q: nat :: OccursAt(t, Fence, p) && p + 3 <= q && OccursAt(t, Fence, q)
  }

  /** A reply without text, or with empty text, fails with "No response". */
  lemma ExtractEmpty(text: Option<string>)
    ensures ExtractJson(text).Failure? <==> text.None? || text.value == ""
    ensures ExtractJson(text).Failure? ==> ExtractJson(text).error == NoResponse
  {
  }

  /** The body a fence captures ends at the first closing fence, so it holds no fence itself. */
  lemma {:induction false} BodyHasNoFence(s: string, start: nat, close: nat)
    requires start <= close
    requires IndexOfFrom(s, Fence, start) == Some(close)
    ensures !Contains(s[start..close], Fence)
  {
    var body := s[start..close];
    forall k: nat | k <= |body| ensures !OccursAt(body, Fence, k) {
      if k + 3 <= |body| {
        assert body[k..k + 3] == s[start + k..start + k + 3];
        assert !OccursAt(s, Fence, start + k);
      }
    }
  }

  /** A json match contains a plain one at the same position. */
  lemma JsonMatchIsPlain(s: string, p: nat)
    ensures JsonMatchAt(s, p) ==> PlainMatchAt(s, p)
  {
    if JsonMatchAt(s, p) {
      var c := IndexOfFrom(s, Fence, JsonBodyStart(s, p)).value;
      assert OccursAt(s, Fence, c) && c >= p + 3;
    }
  }

  /** A plain match is a pair of non-overlapping fences. */
  lemma PlainMatchHasTwoFences(s: string, p: nat)
    ensures PlainMatchAt(s, p) ==> HasTwoFences(s)
  {
    if PlainMatchAt(s, p) {
      var q := IndexOfFrom(s, Fence, p + 3).value;
      assert OccursAt(s, Fence, p) && p + 3 <= q && OccursAt(s, Fence, q);
    }
  }

  /** A text with two non-overlapping fences yields a fenced body, and that body holds no fence. */
  lemma {:induction false} ExtractFenced(t: string)
    requires t != "" && HasTwoFences(t)
    ensures ExtractJson(Some(t)).Success?
    ensures !Contains(ExtractJson(Some(t)).value, Fence)
  {
    var p: nat, q: nat :| OccursAt(t, Fence, p) && p + 3 <= q && OccursAt(t, Fence, q);
    FencesMatch(t, p, q);
    match FirstJsonMatch(t, 0)
    case Some(j) => JsonBodyClean(t, j);
    case None => PlainBodyClean(t, FirstPlainMatch(t, 0).value);
  }

  lemma FencesMatch(t: string, p: nat, q: nat)
    requires OccursAt(t, Fence, p) && p + 3 <= q && OccursAt(t, Fence, q)
    ensures PlainMatchAt(t, p)
  {
  }

  lemma JsonBodyClean(t: string, j: nat)
    requires JsonMatchAt(t, j)
    ensures !Contains(JsonBody(t, j), Fence)
  {
    var start := JsonBodyStart(t, j);
    BodyHasNoFence(t, start, IndexOfFrom(t, Fence, start).value);
  }

  lemma PlainBodyClean(t: string, k: nat)
    requires PlainMatchAt(t, k)
    ensures !Contains(PlainBody(t, k), Fence)
  {
    BodyHasNoFence(t, k + 3, IndexOfFrom(t, Fence, k + 3).value);
  }

  /** A text without two non-overlapping fences (in particular one without any) is passed on unchanged. */
  lemma {:induction false} ExtractUnfenced(t: string)
    requires t != "" && !HasTwoFences(t)
    ensures ExtractJson(Some(t)) == Success(t)
  {
    forall p: nat ensures !PlainMatchAt(t, p) && !JsonMatchAt(t, p) {
      PlainMatchHasTwoFences(t, p);
      JsonMatchIsPlain(t, p);
    }
  }

  /**
   * A "```json" fence wins over any plain fence, wherever that one is: the
   * leftmost json match supplies the body.
   */
  lemma {:induction false} ExtractPrefersJson(t: string, p: nat)
    requires JsonMatchAt(t, p)
    requires forall q :: 0 <= q < p ==> !JsonMatchAt(t, q)
    ensures ExtractJson(Some(t)) == Success(JsonBody(t, p))
  {
  }

  /** Without a json fence, the first fence of any kind supplies the body. */
  lemma {:induction false} ExtractPlainFallback(t: string, p: nat)
    requires forall q: nat :: !JsonMatchAt(t, q)
    requires PlainMatchAt(t, p)
    requires forall q :: 0 <= q < p ==> !PlainMatchAt(t, q)
    ensures ExtractJson(Some(t)) == Success(PlainBody(t, p))
  {
  }

  /**
   * A reply that is a single "```json" fence, whatever the case of "json",
   * yields the fenced text without the white space that follows the opener.
   */
  lemma ExtractJsonFence(tag: string, w: string, b: string)
    requires EqualsIgnoringCase(tag, "json")
    requires AllSpace(w)
    requires '`' !in b && (b == [] || !IsSpace(b[0]))
    ensures ExtractJson(Some(Fence + tag + w + b + Fence)) == Success(b)
  {
    var t := Fence + tag + w + b + Fence;
    JsonFenceOpens(tag, w, b);
    FirstFenceAfter(Fence + tag + w, b);
    assert t[7 + |w|..7 + |w| + |b|] == b;
    ExtractPrefersJson(t, 0);
  }

  lemma JsonFenceOpens(tag: string, w: string, b: string)
    requires EqualsIgnoringCase(tag, "json")
    requires AllSpace(w)
    requires b == [] || !IsSpace(b[0])
    ensures JsonOpenerAt(Fence + tag + w + b + Fence, 0)
    ensures JsonBodyStart(Fence + tag + w + b + Fence, 0) == 7 + |w|
  {
    var t := Fence + tag + w + b + Fence;
    assert t[..3] == Fence && t[3..7] == tag && t[7..7 + |w|] == w;
    assert t[7 + |w|] == if b == [] then '`' else b[0];
    SkipSpaceTo(t, 7, 7 + |w|);
  }

  /** The first fence after a prefix, in a text whose remainder is a backtick-free body and a fence. */
  lemma FirstFenceAfter(p: string, b: string)
    requires '`' !in b
    ensures IndexOfFrom(p + b + Fence, Fence, |p|) == Some(|p| + |b|)
  {
    var t := p + b + Fence;
    var close := |p| + |b|;
    OccursAtEnd(p + b, Fence);
    forall i | |p| <= i < close ensures !OccursAt(t, Fence, i) {
      assert t[i] == b[i - |p|];
      NotOccursAt(t, Fence, i);
    }
    IndexOfFromIs(t, Fence, |p|, close);
  }

  /** `getAnalysis`: one request carrying the transcript, and the text to parse from its reply. */
  function Analysis(chats: seq<Turn>, gen: Generator): (r: Step<string>)
    ensures r.calls == [AnalysisPrompt(FormatHistory(chats))]
    ensures r.result == ExtractJson(gen(r.calls[0]))
    ensures r.result.Failure? <==> gen(r.calls[0]).None? || gen(r.calls[0]).value == ""
    ensures r.result.Failure? ==> r.result.error == NoResponse
  {
    var prompt := AnalysisPrompt(FormatHistory(chats));
    Step(ExtractJson(gen(prompt)), [prompt])
  }

  /** `getNextQuestion` and `getAnalysis` print the same transcript for the same chats. */
  lemma SameTranscript(points: seq<Point>, chats: seq<Turn>, gen: Generator)
    requires points != []
    ensures NextQuestion(points, chats, gen).calls[0].history == Analysis(chats, gen).calls[0].transcript
  {
  }

  // ---------------------------------------------------------------------------
  // classifyUserAnswer
  // ---------------------------------------------------------------------------

  /** The verdict on a reply: an answer (`false` in the source) or a clarified question. */
  datatype Verdict = Answered | Clarified(question: string)

  /** The trimmed label is exactly "clarification" (case matters). */
  predicate AsksClarification(reply: Option<string>) {
    reply.Some? && Trim(reply.value) == "clarification"
  }

  /**
   * `classifyUserAnswer`: one request to label the reply; only the label
   * "clarification" leads to a second request, which carries the question
   * alone, and whose trimmed reply is the clarified question.
   */
  function ClassifyAnswer(query: string, answer: string, gen: Generator): (r: Step<Verdict>)
    ensures |r.calls| >= 1 && r.calls[0] == ClassifyPrompt(query, answer)
    ensures |r.calls| == 2 <==> AsksClarification(gen(ClassifyPrompt(query, answer)))
    ensures |r.calls| == 2 ==> r.calls[1] == RephrasePrompt(query)
    ensures |r.calls| <= 2
    ensures r.result == Success(Answered) <==> !AsksClarification(gen(ClassifyPrompt(query, answer)))
    ensures r.result.Failure? <==> |r.calls| == 2 && gen(RephrasePrompt(query)).None?
    ensures r.result.Failure? ==> r.result.error == RephraseMissing
    ensures r.result.Success? && r.result.value.Clarified? ==>
      NoOuterSpace(r.result.value.question) && PaddedBy(gen(RephrasePrompt(query)).value, r.result.value.question)
  {
    var ask := ClassifyPrompt(query, answer);
    if AsksClarification(gen(ask)) then
      var rephrase := RephrasePrompt(query);
      match gen(rephrase)
      case None => Step(Failure(RephraseMissing), [ask, rephrase])
      case Some(text) => Step(Success(Clarified(Trim(text))), [ask, rephrase])
    else
      Step(Success(Answered), [ask])
  }

  /** The label is compared exactly: "Clarification" is an answer. */
  lemma ClassifyIsCaseSensitive(query: string, answer: string, gen: Generator)
    requires gen(ClassifyPrompt(query, answer)) == Some("Clarification")
    ensures ClassifyAnswer(query, answer, gen) == Step(Success(Answered), [ClassifyPrompt(query, answer)])
  {
    assert "Clarification"[0] != "clarification"[0];
  }

  /** A label with any white space around it still asks for clarification. */
  lemma ClassifyTrimsLabel(query: string, answer: string, gen: Generator, a: string, b: string)
    requires AllSpace(a) && AllSpace(b)
    requires gen(ClassifyPrompt(query, answer)) == Some(a + "clarification" + b)
    requires gen(RephrasePrompt(query)).Some?
    ensures ClassifyAnswer(query, answer, gen) ==
      Step(Success(Clarified(Trim(gen(RephrasePrompt(query)).value))), [ClassifyPrompt(query, answer), RephrasePrompt(query)])
  {
    assert NoOuterSpace("clarification");
    TrimPadded(a, "clarification", b);
  }

  /** The candidate's reply matters only through the label it draws. */
  lemma ClassifyDependsOnLabel(query: string, a1: string, a2: string, gen: Generator)
    requires gen(ClassifyPrompt(query, a1)) == gen(ClassifyPrompt(query, a2))
    ensures ClassifyAnswer(query, a1, gen).result == ClassifyAnswer(query, a2, gen).result
    ensures ClassifyAnswer(query, a1, gen).calls[1..] == ClassifyAnswer(query, a2, gen).calls[1..]
  {
  }
}
