/**
 * The hosted database as in-memory tables: `entries`, `interview_responses`,
 * `daily_pages`, `profiles`, `shell_items` and `shell_categories`, with the
 * query, upsert, insert and delete operations the application issues.
 * Database-generated columns (`id`, and `created_at` on tables whose rows
 * are never filtered by it) are not modelled.
 */
module Store {
  import opened Wrappers
  import JsString
  import IsoDate

  type UserId = string

  /** Milliseconds since the Unix epoch, UTC: the `created_at` column. */
  type Timestamp = int

  /**
   * A row of a table that is filtered by owner and creation time: `entries`
   * (payload: the note's content) and `interview_responses` (payload: an Answer).
   */
  datatype Row<P> = Row(userId: UserId, createdAt: Timestamp, payload: P)

  /** The `type` column of `interview_responses`. */
  datatype Kind = Base | Ai

  datatype Answer = Answer(question: string, answer: string, kind: Kind)

  type Entry = Row<string>
  type InterviewResponse = Row<Answer>

  /** A row of `daily_pages`; `title` is None where the column holds null. */
  datatype DailyPage = DailyPage(userId: UserId, date: string, title: Option<string>, content: string, wordCount: nat)

  /**
   * The `title` key of an upserted object: `Omitted` when its value is
   * `undefined`, which the JSON request body leaves out, `Sent` otherwise
   * (None for a JSON null).
   */
  datatype TitleField = Omitted | Sent(title: Option<string>)

  /** The object handed to the `daily_pages` upsert. */
  datatype PageWrite = PageWrite(userId: UserId, date: string, title: TitleField, content: string, wordCount: nat)

  /** The conflict target of the `daily_pages` upsert: (user_id, date). */
  type PageKey = (UserId, string)

  /** A row of `profiles`; the flag is None when the column holds null. */
  datatype Profile = Profile(aiExtractionEnabled: Option<bool>)

  datatype ShellItem = ShellItem(category: string, title: string, description: string, userId: UserId)

  /** A row of `shell_categories`; `userId` is None when it was inserted without a signed-in user. */
  datatype ShellCategory = ShellCategory(name: string, description: string, userId: Option<UserId>, iconName: string)

  /** Every page is stored under its own (user_id, date), so there is at most one page per user and date. */
  ghost predicate PagesKeyed(pages: map<PageKey, DailyPage>)
  {
    forall k :: k in pages ==> pages[k].userId == k.0 && pages[k].date == k.1
  }

  function KeyOf(page: DailyPage): PageKey
  {
    (page.userId, page.date)
  }

  function WriteKey(w: PageWrite): PageKey
  {
    (w.userId, w.date)
  }

  /**
   * `upsert(w, { onConflict: 'user_id, date' })`: a new key gets a new row,
   * with null for a title the body left out; on a conflict only the columns
   * present in the body are updated, so a left-out title keeps the stored one.
   */
  function Upsert(pages: map<PageKey, DailyPage>, w: PageWrite): (r: map<PageKey, DailyPage>)
    ensures WriteKey(w) in r
    ensures KeyOf(r[WriteKey(w)]) == WriteKey(w)
    ensures r[WriteKey(w)].content == w.content && r[WriteKey(w)].wordCount == w.wordCount
    ensures w.title.Sent? ==> r[WriteKey(w)].title == w.title.title
    ensures w.title.Omitted? && WriteKey(w) in pages ==> r[WriteKey(w)].title == pages[WriteKey(w)].title
    ensures w.title.Omitted? && WriteKey(w) !in pages ==> r[WriteKey(w)].title == None
    ensures forall k :: k != WriteKey(w) ==> (k in r <==> k in pages)
    ensures forall k :: k != WriteKey(w) && k in pages ==> r[k] == pages[k]
    ensures PagesKeyed(pages) ==> PagesKeyed(r)
    ensures |r| == if WriteKey(w) in pages then |pages| else |pages| + 1
  {
    var key := WriteKey(w);
    var title := match w.title
      case Sent(t) => t
      case Omitted => if key in pages then pages[key].title else None;
    pages[key := DailyPage(w.userId, w.date, title, w.content, w.wordCount)]
  }

  /** A second upsert for the same user and date that sends a title replaces the first one entirely. */
  lemma UpsertSameKeyReplaces(pages: map<PageKey, DailyPage>, first: PageWrite, second: PageWrite)
    requires WriteKey(first) == WriteKey(second) && second.title.Sent?
    ensures Upsert(Upsert(pages, first), second) == Upsert(pages, second)
  {
  }

  /** A second upsert that leaves the title out replaces the content and keeps the first run's title. */
  lemma UpsertOmittedTitleKeepsFirst(pages: map<PageKey, DailyPage>, first: PageWrite, second: PageWrite)
    requires WriteKey(first) == WriteKey(second) && second.title.Omitted?
    ensures var r := Upsert(Upsert(pages, first), second)[WriteKey(second)];
            r.content == second.content && r.title == Upsert(pages, first)[WriteKey(first)].title
  {
  }

  /** `.eq('user_id', u).gte('created_at', since)` */
  predicate Matches<P>(row: Row<P>, u: UserId, since: Timestamp)
  {
    row.userId == u && row.createdAt >= since
  }

  /** The rows a select with that filter returns, in table order. */
  function Since<P>(rows: seq<Row<P>>, u: UserId, since: Timestamp): (r: seq<Row<P>>)
    ensures forall i :: 0 <= i < |r| ==> Matches(r[i], u, since)
    ensures multiset(r) <= multiset(rows)
  {
    if rows == [] then []
    else
      assert rows == [rows[0]] + rows[1..];
      (if Matches(rows[0], u, since) then [rows[0]] else []) + Since(rows[1..], u, since)
  }

  /** The rows left after a delete with that filter, in table order. */
  function Except<P>(rows: seq<Row<P>>, u: UserId, since: Timestamp): (r: seq<Row<P>>)
    ensures forall i :: 0 <= i < |r| ==> !Matches(r[i], u, since)
    ensures multiset(r) <= multiset(rows)
  {
    if rows == [] then []
    else
      assert rows == [rows[0]] + rows[1..];
      (if Matches(rows[0], u, since) then [] else [rows[0]]) + Except(rows[1..], u, since)
  }

  /** The select returns every row that matches its filter. */
  lemma {:induction false} SinceKeepsMatching<P>(rows: seq<Row<P>>, u: UserId, since: Timestamp, i: nat)
    requires i < |rows| && Matches(rows[i], u, since)
    ensures rows[i] in Since(rows, u, since)
  {
    if i > 0 {
      SinceKeepsMatching(rows[1..], u, since, i - 1);
    }
  }

  /** The delete keeps every row that does not match its filter. */
  lemma {:induction false} ExceptKeepsOthers<P>(rows: seq<Row<P>>, u: UserId, since: Timestamp, i: nat)
    requires i < |rows| && !Matches(rows[i], u, since)
    ensures rows[i] in Except(rows, u, since)
  {
    if i > 0 {
      ExceptKeepsOthers(rows[1..], u, since, i - 1);
    }
  }

  /** A select and a delete with the same filter split the table: what is deleted is exactly what was read. */
  lemma {:induction false} SinceAndExceptPartition<P>(rows: seq<Row<P>>, u: UserId, since: Timestamp)
    ensures multiset(Since(rows, u, since)) + multiset(Except(rows, u, since)) == multiset(rows)
  {
    if rows != [] {
      SinceAndExceptPartition(rows[1..], u, since);
      assert rows == [rows[0]] + rows[1..];
    }
  }

  /**
   * A row written after the select and before the delete that matches the
   * filter was not read, and the delete removes it all the same.
   */
  lemma LateRowIsLost<P>(rows: seq<Row<P>>, late: seq<Row<P>>, u: UserId, since: Timestamp, i: nat)
    requires i < |late| && Matches(late[i], u, since) && late[i] !in rows
    ensures late[i] !in Since(rows, u, since)
    ensures late[i] !in Except(rows + late, u, since)
  {
  }

  /**
   * The rows left after deleting exactly the rows `read` names, each as often
   * as it was read: removal by the identities of the rows that were read.
   */
  function Consume<P(==)>(rows: seq<Row<P>>, read: multiset<Row<P>>): (r: seq<Row<P>>)
    ensures multiset(r) == multiset(rows) - read
  {
    if rows == [] then []
    else
      var x := rows[0];
      assert rows == [x] + rows[1..];
      if x in read then Consume(rows[1..], read - multiset{x})
      else [x] + Consume(rows[1..], read)
  }

  /** Deleting what was read keeps every row written between the select and the delete. */
  lemma ConsumeKeepsLateRows<P>(rows: seq<Row<P>>, late: seq<Row<P>>, u: UserId, since: Timestamp)
    ensures multiset(Consume(rows + late, multiset(Since(rows, u, since))))
            == multiset(Except(rows, u, since)) + multiset(late)
  {
    SinceAndExceptPartition(rows, u, since);
    var s := multiset(Since(rows, u, since));
    var e := multiset(Except(rows, u, since));
    assert multiset(rows + late) == s + e + multiset(late);
    assert (s + e + multiset(late)) - s == e + multiset(late);
  }

  /** `.eq('user_id', u)` */
  function OwnedBy<T>(rows: seq<Row<T>>, u: UserId): (r: seq<Row<T>>)
    ensures forall i :: 0 <= i < |r| ==> r[i].userId == u
    ensures multiset(r) <= multiset(rows)
  {
    if rows == [] then []
    else
      assert rows == [rows[0]] + rows[1..];
      (if rows[0].userId == u then [rows[0]] else []) + OwnedBy(rows[1..], u)
  }

  /** The owner filter drops none of the owner's rows. */
  lemma {:induction false} OwnedByKeepsOwned<T>(rows: seq<Row<T>>, u: UserId, i: nat)
    requires i < |rows| && rows[i].userId == u
    ensures rows[i] in OwnedBy(rows, u)
  {
    if i > 0 {
      OwnedByKeepsOwned(rows[1..], u, i - 1);
    }
  }

  /** `rows.map(e => e.content)` over `entries` rows. */
  function Contents(entries: seq<Entry>): (r: seq<string>)
    ensures |r| == |entries|
    ensures forall k :: 0 <= k < |r| ==> r[k] == entries[k].payload
  {
    if entries == [] then [] else [entries[0].payload] + Contents(entries[1..])
  }

  /** `iso.split('T')[0]`: the text before the first 'T', or all of it when there is none. */
  function DatePrefix(iso: string): (r: string)
    ensures JsString.StartsWith(iso, r)
    ensures 'T' !in r
    ensures |r| < |iso| ==> iso[|r|] == 'T'
  {
    if iso == [] || iso[0] == 'T' then [] else [iso[0]] + DatePrefix(iso[1..])
  }

  /** Before the first 'T' stands `a` when `a` has none. */
  lemma {:induction false} DatePrefixBeforeT(a: string, b: string)
    requires 'T' !in a
    ensures DatePrefix(a + ("T" + b)) == a
  {
    if a != [] {
      assert (a + ("T" + b))[1..] == a[1..] + ("T" + b);
      DatePrefixBeforeT(a[1..], b);
    }
  }

  /** `new Date(t).toISOString().split('T')[0]` is the `YYYY-MM-DD` text of the UTC date of `t`. */
  lemma TodayIsUtcDate(t: Timestamp)
    ensures DatePrefix(IsoDate.IsoString(t)) == IsoDate.DateText(IsoDate.UtcDate(t))
  {
    DatePrefixBeforeT(IsoDate.DateText(IsoDate.UtcDate(t)), IsoDate.TimeText(t % IsoDate.MsPerDay) + "Z");
  }

  class Database {
    var entries: seq<Entry>
    var interviewResponses: seq<InterviewResponse>
    var dailyPages: map<PageKey, DailyPage>
    var profiles: map<UserId, Profile>
    var shellItems: seq<ShellItem>
    var shellCategories: seq<ShellCategory>

    /** The unique constraint on `daily_pages` (user_id, date). */
    ghost predicate Valid()
      reads this
    {
      PagesKeyed(dailyPages)
    }

    constructor ()
      ensures Valid()
      ensures entries == [] && interviewResponses == [] && dailyPages == map[]
      ensures profiles == map[] && shellItems == [] && shellCategories == []
    {
      entries, interviewResponses, dailyPages := [], [], map[];
      profiles, shellItems, shellCategories := map[], [], [];
    }

    /** `from('daily_pages').upsert(w, { onConflict: 'user_id, date' })` */
    method UpsertPage(w: PageWrite)
      requires Valid()
      modifies this
      ensures Valid()
      ensures dailyPages == Upsert(old(dailyPages), w)
      ensures entries == old(entries) && interviewResponses == old(interviewResponses)
      ensures profiles == old(profiles) && shellItems == old(shellItems) && shellCategories == old(shellCategories)
    {
      dailyPages := Upsert(dailyPages, w);
    }

    /** `from('entries').delete().eq('user_id', u).gte('created_at', since)` */
    method DeleteEntriesSince(u: UserId, since: Timestamp)
      requires Valid()
      modifies this
      ensures Valid()
      ensures entries == Except(old(entries), u, since)
      ensures interviewResponses == old(interviewResponses) && dailyPages == old(dailyPages)
      ensures profiles == old(profiles) && shellItems == old(shellItems) && shellCategories == old(shellCategories)
    {
      entries := Except(entries, u, since);
    }

    /** `from('interview_responses').delete().eq('user_id', u).gte('created_at', since)` */
    method DeleteResponsesSince(u: UserId, since: Timestamp)
      requires Valid()
      modifies this
      ensures Valid()
      ensures interviewResponses == Except(old(interviewResponses), u, since)
      ensures entries == old(entries) && dailyPages == old(dailyPages)
      ensures profiles == old(profiles) && shellItems == old(shellItems) && shellCategories == old(shellCategories)
    {
      interviewResponses := Except(interviewResponses, u, since);
    }

    /** `from('entries').insert(rows)`, as the notes page issues it. */
    method InsertEntries(rows: seq<Entry>)
      requires Valid()
      modifies this
      ensures Valid()
      ensures entries == old(entries) + rows
      ensures interviewResponses == old(interviewResponses) && dailyPages == old(dailyPages)
      ensures profiles == old(profiles) && shellItems == old(shellItems) && shellCategories == old(shellCategories)
    {
      entries := entries + rows;
    }

    /** `from('interview_responses').insert(rows)` */
    method InsertResponses(rows: seq<InterviewResponse>)
      requires Valid()
      modifies this
      ensures Valid()
      ensures interviewResponses == old(interviewResponses) + rows
      ensures entries == old(entries) && dailyPages == old(dailyPages)
      ensures profiles == old(profiles) && shellItems == old(shellItems) && shellCategories == old(shellCategories)
    {
      interviewResponses := interviewResponses + rows;
    }

    /** `from('shell_items').insert(rows)` */
    method InsertShellItems(rows: seq<ShellItem>)
      requires Valid()
      modifies this
      ensures Valid()
      ensures shellItems == old(shellItems) + rows
      ensures entries == old(entries) && interviewResponses == old(interviewResponses)
      ensures dailyPages == old(dailyPages) && profiles == old(profiles) && shellCategories == old(shellCategories)
    {
      shellItems := shellItems + rows;
    }

    /** `from('shell_categories').insert([row])` */
    method InsertCategory(row: ShellCategory)
      requires Valid()
      modifies this
      ensures Valid()
      ensures shellCategories == old(shellCategories) + [row]
      ensures entries == old(entries) && interviewResponses == old(interviewResponses)
      ensures dailyPages == old(dailyPages) && profiles == old(profiles) && shellItems == old(shellItems)
    {
      shellCategories := shellCategories + [row];
    }
  }
}
