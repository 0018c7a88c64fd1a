/**
 * The `POST` handler that consolidates today's notes and interview answers
 * into one diary page: guard, context build, reply check, upsert keyed on
 * (user_id, date), then cleanup of what was consumed. The generation service
 * is not called here: its parsed reply is an input.
 */
module GenerateDiaryPage {
  import opened Wrappers
  import opened Store
  import JsString
  import IsoDate

  /**
   * The parsed reply of the generation service: its `title` key is left out
   * of the upsert body when the object lacks it, and sent as null when it
   * holds null; `content` is None when it is missing or not a string.
   */
  datatype Story = Story(title: TitleField, content: Option<string>)

  /** What a thrown exception stands for: all of them answer 500 with the exception's message. */
  datatype Cause =
    | GenerationFailed  // the completion call failed, or its text was not JSON
    | ContentMissing    // `story.content.split` on a missing content
    | SaveFailed        // the upsert reported an error

  datatype Failure =
    | Unauthorized       // 401, "Unauthorized"
    | NoDataToday        // 400, "No data found for today to generate a story."
    | Thrown(cause: Cause)

  /** `Saved` carries the row the upsert returned (`.select().single()`). */
  datatype Response = Saved(page: DailyPage) | Failed(failure: Failure)

  function Status(r: Response): (code: int)
    ensures code == 200 <==> r.Saved?
    ensures code == 401 <==> r == Failed(Unauthorized)
    ensures code == 400 <==> r == Failed(NoDataToday)
    ensures code == 500 <==> r.Failed? && r.failure.Thrown?
  {
    match r
    case Saved(_) => 200
    case Failed(Unauthorized) => 401
    case Failed(NoDataToday) => 400
    case Failed(Thrown(_)) => 500
  }

  const NotesLabel: string := "\n      RAW NOTES: "
  const AnswersLabel: string := "\n      INTERVIEW ANSWERS: "
  const ContextEnd: string := "\n    "
  const LineBreak: string := "\n"

  /** `Q: <question> A: <answer>` */
  function QaLine(a: Answer): (r: string)
    ensures |r| == |a.question| + |a.answer| + 7
  {
    "Q: " + a.question + " A: " + a.answer
  }

  /** The line holds the question after `Q: ` and the answer after ` A: `. */
  lemma QaLineParts(a: Answer)
    ensures var r := QaLine(a);
            && r[..3] == "Q: " && r[3..3 + |a.question|] == a.question
            && r[3 + |a.question|..7 + |a.question|] == " A: " && r[7 + |a.question|..] == a.answer
  {
  }

  /** `interviews.map(i => 'Q: ... A: ...')` */
  function QaLines(responses: seq<InterviewResponse>): (r: seq<string>)
    ensures |r| == |responses|
    ensures forall k :: 0 <= k < |r| ==> r[k] == QaLine(responses[k].payload)
  {
    if responses == [] then [] else [QaLine(responses[0].payload)] + QaLines(responses[1..])
  }

  /** Two labelled sections, each a list of lines joined by `sep`, then a closing text. */
  function Sections(label1: string, lines1: seq<string>, label2: string, lines2: seq<string>, end: string, sep: string): string
  {
    label1 + (JsString.Join(lines1, sep) + (label2 + (JsString.Join(lines2, sep) + end)))
  }

  /** Where the second section's lines begin. */
  function SecondStart(label1: string, lines1: seq<string>, label2: string, sep: string): nat
  {
    |label1| + |JsString.Join(lines1, sep)| + |label2|
  }

  /** The text begins with the first label. */
  lemma SectionsStartWithFirstLabel(label1: string, lines1: seq<string>, label2: string, lines2: seq<string>, end: string, sep: string)
    ensures |label1| <= |Sections(label1, lines1, label2, lines2, end, sep)|
    ensures Sections(label1, lines1, label2, lines2, end, sep)[..|label1|] == label1
  {
    var rest := JsString.Join(lines1, sep) + (label2 + (JsString.Join(lines2, sep) + end));
    JsString.SliceBefore(label1, rest, 0, |label1|);
  }

  /** Line `k` of the first section stands right after the first label, at its offset in that section. */
  lemma SectionsPlaceFirst(label1: string, lines1: seq<string>, label2: string, lines2: seq<string>, end: string, sep: string, k: nat)
    requires k < |lines1|
    ensures var at := |label1| + JsString.PartOffset(lines1, sep, k);
            at + |lines1[k]| <= |Sections(label1, lines1, label2, lines2, end, sep)|
            && Sections(label1, lines1, label2, lines2, end, sep)[at..at + |lines1[k]|] == lines1[k]
  {
    var first := JsString.Join(lines1, sep);
    var rest := label2 + (JsString.Join(lines2, sep) + end);
    JsString.JoinHoldsPart(lines1, sep, k);
    var o := JsString.PartOffset(lines1, sep, k);
    var n := |lines1[k]|;
    JsString.SliceAfter(label1, first + rest, o, o + n);
    JsString.SliceBefore(first, rest, o, o + n);
  }

  /** The second label ends where the second section's lines begin. */
  lemma SectionsSecondLabel(label1: string, lines1: seq<string>, label2: string, lines2: seq<string>, end: string, sep: string)
    ensures |label2| <= SecondStart(label1, lines1, label2, sep) <= |Sections(label1, lines1, label2, lines2, end, sep)|
    ensures var start := SecondStart(label1, lines1, label2, sep);
            Sections(label1, lines1, label2, lines2, end, sep)[start - |label2|..start] == label2
  {
    var first := JsString.Join(lines1, sep);
    var tail := JsString.Join(lines2, sep) + end;
    var mid := label2 + tail;
    JsString.SliceAfter(label1, first + mid, |first|, |first| + |label2|);
    JsString.SliceAfter(first, mid, 0, |label2|);
    JsString.SliceBefore(label2, tail, 0, |label2|);
  }

  /** A slice of the fourth part of `a + (b + (c + (d + e)))` is that slice of `d`. */
  lemma SliceOfFourth(a: string, b: string, c: string, d: string, e: string, i: nat, j: nat)
    requires i <= j <= |d|
    ensures |a| + |b| + |c| + j <= |a + (b + (c + (d + e)))|
    ensures (a + (b + (c + (d + e))))[|a| + |b| + |c| + i..|a| + |b| + |c| + j] == d[i..j]
  {
    JsString.SliceAfter(a, b + (c + (d + e)), |b| + |c| + i, |b| + |c| + j);
    JsString.SliceAfter(b, c + (d + e), |c| + i, |c| + j);
    JsString.SliceAfter(c, d + e, i, j);
    JsString.SliceBefore(d, e, i, j);
  }

  /** Line `k` of the second section stands at its offset after the second label. */
  lemma SectionsPlaceSecond(label1: string, lines1: seq<string>, label2: string, lines2: seq<string>, end: string, sep: string, k: nat)
    requires k < |lines2|
    ensures var at := SecondStart(label1, lines1, label2, sep) + JsString.PartOffset(lines2, sep, k);
            at + |lines2[k]| <= |Sections(label1, lines1, label2, lines2, end, sep)|
            && Sections(label1, lines1, label2, lines2, end, sep)[at..at + |lines2[k]|] == lines2[k]
  {
    var second := JsString.Join(lines2, sep);
    JsString.JoinHoldsPart(lines2, sep, k);
    var o := JsString.PartOffset(lines2, sep, k);
    SliceOfFourth(label1, JsString.Join(lines1, sep), label2, second, end, o, o + |lines2[k]|);
  }

  /** The context text sent to the generation service. */
  function Context(entries: seq<Entry>, responses: seq<InterviewResponse>): string
  {
    Sections(NotesLabel, Contents(entries), AnswersLabel, QaLines(responses), ContextEnd, LineBreak)
  }

  /** Where the content of note `k` begins in the context. */
  function NoteOffset(entries: seq<Entry>, k: nat): nat
    requires k < |entries|
  {
    |NotesLabel| + JsString.PartOffset(Contents(entries), LineBreak, k)
  }

  /** Where the answers section begins in the context. */
  function AnswersStart(entries: seq<Entry>): nat
  {
    SecondStart(NotesLabel, Contents(entries), AnswersLabel, LineBreak)
  }

  /** Where the line of response `k` begins in the context. */
  function AnswerOffset(entries: seq<Entry>, responses: seq<InterviewResponse>, k: nat): nat
    requires k < |responses|
  {
    AnswersStart(entries) + JsString.PartOffset(QaLines(responses), LineBreak, k)
  }

  /**
   * The context starts with the notes label, and every note's content stands
   * under it, in order: a note begins one line break after the previous one ends.
   */
  lemma ContextPlacesNote(entries: seq<Entry>, responses: seq<InterviewResponse>, k: nat)
    requires k < |entries|
    ensures |NotesLabel| <= |Context(entries, responses)|
    ensures Context(entries, responses)[..|NotesLabel|] == NotesLabel
    ensures NoteOffset(entries, k) + |entries[k].payload| <= |Context(entries, responses)|
    ensures Context(entries, responses)[NoteOffset(entries, k)..NoteOffset(entries, k) + |entries[k].payload|] == entries[k].payload
  {
    SectionsStartWithFirstLabel(NotesLabel, Contents(entries), AnswersLabel, QaLines(responses), ContextEnd, LineBreak);
    SectionsPlaceFirst(NotesLabel, Contents(entries), AnswersLabel, QaLines(responses), ContextEnd, LineBreak, k);
    assert Contents(entries)[k] == entries[k].payload;
  }

  /**
   * After all notes comes the answers label, and every interview response
   * stands under it as its `Q: ... A: ...` line, in order.
   */
  lemma ContextPlacesAnswer(entries: seq<Entry>, responses: seq<InterviewResponse>, k: nat)
    requires k < |responses|
    ensures |AnswersLabel| <= AnswersStart(entries) <= |Context(entries, responses)|
    ensures Context(entries, responses)[AnswersStart(entries) - |AnswersLabel|..AnswersStart(entries)] == AnswersLabel
    ensures AnswerOffset(entries, responses, k) + |QaLine(responses[k].payload)| <= |Context(entries, responses)|
    ensures Context(entries, responses)[AnswerOffset(entries, responses, k)..AnswerOffset(entries, responses, k) + |QaLine(responses[k].payload)|]
            == QaLine(responses[k].payload)
  {
    var lines := QaLines(responses);
    SectionsSecondLabel(NotesLabel, Contents(entries), AnswersLabel, lines, ContextEnd, LineBreak);
    SectionsPlaceSecond(NotesLabel, Contents(entries), AnswersLabel, lines, ContextEnd, LineBreak, k);
    assert lines[k] == QaLine(responses[k].payload);
  }

  /** The object upserted for a reply; its word count is derived from the content, never taken from the reply. */
  function PageFor(u: UserId, date: string, title: TitleField, content: string): (w: PageWrite)
    ensures WriteKey(w) == (u, date)
    ensures w.wordCount == JsString.RunsFrom(content, 0) + 1
    ensures w.title == title && w.content == content
  {
    JsString.WordCountIsRunsPlusOne(content);
    PageWrite(u, date, title, content, JsString.WordCount(content))
  }

  /**
   * `POST`. `nowMs` is the clock's one reading (`new Date()`); the date text
   * and the filter bound both come from it. `reply` is what came back from
   * the generation service (None when the call or the JSON parse failed);
   * `lateNotes` and `lateAnswers` are rows other requests insert while that
   * call is awaited; `saveOk` is whether the upsert succeeded. `prompt` is
   * the context sent to the service, None when no call was made.
   */
  method Post(db: Database, user: Option<UserId>, nowMs: Timestamp, reply: Option<Story>,
              lateNotes: seq<Entry>, lateAnswers: seq<InterviewResponse>, saveOk: bool)
    returns (response: Response, prompt: Option<string>)
    requires db.Valid()
    modifies db
    ensures db.Valid()
    // No signed-in user: 401, nothing read or written.
    ensures user.None? ==> response == Failed(Unauthorized) && prompt.None? && unchanged(db)
    // A year without four digits gives a date literal the database refuses: no rows, 400.
    ensures user.Some? && !(0 <= IsoDate.UtcDate(nowMs).year <= 9999) ==>
      response == Failed(NoDataToday) && prompt.None? && unchanged(db)
    ensures user.Some? && 0 <= IsoDate.UtcDate(nowMs).year <= 9999 ==>
      var u := user.value;
      // The page's date and the rows' lower bound name the same UTC day.
      var day := IsoDate.UtcDate(nowMs);
      var today := IsoDate.DateText(day);
      var since := IsoDate.MidnightOf(day);
      var notes := Since(old(db.entries), u, since);
      var answers := Since(old(db.interviewResponses), u, since);
      && db.profiles == old(db.profiles) && db.shellItems == old(db.shellItems)
      && db.shellCategories == old(db.shellCategories)
      && (if notes == [] && answers == [] then
            // Nothing today: 400, no generation call, no write.
            response == Failed(NoDataToday) && prompt.None? && unchanged(db)
          else
            && prompt == Some(Context(notes, answers))
            && (if reply.None? || reply.value.content.None? || !saveOk then
                  && response == Failed(Thrown(if reply.None? then GenerationFailed
                                               else if reply.value.content.None? then ContentMissing
                                               else SaveFailed))
                  && db.dailyPages == old(db.dailyPages)
                  && db.entries == old(db.entries) + lateNotes
                  && db.interviewResponses == old(db.interviewResponses) + lateAnswers
                else
                  // Saved: the page is upserted under (user, date) and returned as stored;
                  // the deletes take every row matching the filter when they run,
                  // the late rows included.
                  var w := PageFor(u, today, reply.value.title, reply.value.content.value);
                  && db.dailyPages == Upsert(old(db.dailyPages), w)
                  && response == Saved(db.dailyPages[(u, today)])
                  && response.page.date == today
                  && db.entries == Except(old(db.entries) + lateNotes, u, since)
                  && db.interviewResponses == Except(old(db.interviewResponses) + lateAnswers, u, since)))
  {
    prompt := None;
    if user.None? {
      return Failed(Unauthorized), None;
    }
    var u := user.value;
    var today := DatePrefix(IsoDate.IsoString(nowMs));
    TodayIsUtcDate(nowMs);
    var day := IsoDate.UtcDate(nowMs);
    if 0 <= day.year <= 9999 {
      IsoDate.ParseDateText(day);
    }
    var parsed := IsoDate.ParseDate(today);
    if parsed.None? {
      return Failed(NoDataToday), None;
    }
    var since := IsoDate.MidnightOf(parsed.value);
    var notes := Since(db.entries, u, since);
    var answers := Since(db.interviewResponses, u, since);
    if notes == [] && answers == [] {
      return Failed(NoDataToday), None;
    }
    prompt := Some(Context(notes, answers));
    // Other requests write while the generation call is awaited.
    db.InsertEntries(lateNotes);
    db.InsertResponses(lateAnswers);
    if reply.None? {
      return Failed(Thrown(GenerationFailed)), prompt;
    }
    var story := reply.value;
    if story.content.None? {
      return Failed(Thrown(ContentMissing)), prompt;
    }
    var w := PageFor(u, today, story.title, story.content.value);
    if !saveOk {
      return Failed(Thrown(SaveFailed)), prompt;
    }
    db.UpsertPage(w);
    db.DeleteResponsesSince(u, since);
    db.DeleteEntriesSince(u, since);
    response := Saved(db.dailyPages[WriteKey(w)]);
  }
}
