/**
 * The `POST` handler that extracts people, places, goals and values from a
 * user's latest notes into `shell_items`: the profile opt-out gate, the
 * fifteen-entry window, the joined text, and the mapping from extracted
 * items to rows. The extraction service is not called here: its parsed
 * reply is an input.
 */
module Extract {
  import opened Wrappers
  import opened Store
  import JsString

  /** `.limit(15)` */
  const WindowSize: nat := 15

  /** What the entries' contents are joined with. */
  const EntrySeparator: string := "\n---\n"

  /** One element of the reply's `items` array. */
  datatype Item = Item(category: string, title: string, description: string)

  /** The parsed reply object; `items` is None when the object has no `items` key. */
  datatype Reply = Reply(items: Option<seq<Item>>)

  datatype Response =
    | Unauthorized           // 401
    | Disabled               // 403, "AI Extraction is disabled"
    | NoEntries              // 200, "No entries to analyze"
    | Extracted(count: nat)  // 200, { success: true, count }
    | Failed                 // 500, the exception's message

  function Status(r: Response): (code: int)
    ensures code == 200 <==> r == NoEntries || r.Extracted?
    ensures code == 401 <==> r == Unauthorized
    ensures code == 403 <==> r == Disabled
    ensures code == 500 <==> r == Failed
  {
    match r
    case Unauthorized => 401
    case Disabled => 403
    case NoEntries => 200
    case Extracted(_) => 200
    case Failed => 500
  }

  /** `profile && profile.ai_extraction_enabled === false`: only a stored `false` disables extraction. */
  predicate ExtractionDisabled(profiles: map<UserId, Profile>, u: UserId)
    ensures u !in profiles ==> !ExtractionDisabled(profiles, u)
    ensures u in profiles && profiles[u].aiExtractionEnabled != Some(false) ==> !ExtractionDisabled(profiles, u)
  {
    u in profiles && profiles[u].aiExtractionEnabled == Some(false)
  }

  /** Most recent first, `order('created_at', { ascending: false })`: no row is newer than the one before it. */
  ghost predicate NewestFirst(rows: seq<Entry>)
  {
    forall i :: 0 < i < |rows| ==> rows[i - 1].createdAt >= rows[i].createdAt
  }

  lemma {:induction false} NewestFirstPairwise(rows: seq<Entry>, i: nat, j: nat)
    requires NewestFirst(rows)
    requires i <= j < |rows|
    ensures rows[i].createdAt >= rows[j].createdAt
    decreases j - i
  {
    if i < j {
      NewestFirstPairwise(rows, i + 1, j);
    }
  }

  /** A row no older than the head of a newest-first sequence can go in front of it. */
  lemma NewestFirstCons(y: Entry, rows: seq<Entry>)
    requires NewestFirst(rows)
    requires rows == [] || rows[0].createdAt <= y.createdAt
    ensures NewestFirst([y] + rows)
  {
    assert forall i :: 0 < i <= |rows| ==> ([y] + rows)[i] == rows[i - 1];
  }

  /** The tail of a newest-first sequence is newest first. */
  lemma NewestFirstTail(rows: seq<Entry>)
    requires NewestFirst(rows) && rows != []
    ensures NewestFirst(rows[1..])
  {
    assert forall i :: 0 < i < |rows| - 1 ==> rows[1..][i] == rows[i + 1];
  }

  /** Puts `x` into a newest-first sequence, before the first row that is not newer than it. */
  function InsertByTime(x: Entry, rows: seq<Entry>): (r: seq<Entry>)
    requires NewestFirst(rows)
    ensures NewestFirst(r)
    ensures multiset(r) == multiset(rows) + multiset{x}
    ensures |r| == |rows| + 1
    ensures rows == [] || r[0] == x || r[0] == rows[0]
  {
    if rows == [] || rows[0].createdAt <= x.createdAt then
      NewestFirstCons(x, rows);
      [x] + rows
    else
      NewestFirstTail(rows);
      var rest := InsertByTime(x, rows[1..]);
      assert multiset(rows) == multiset{rows[0]} + multiset(rows[1..]) by {
        assert rows == [rows[0]] + rows[1..];
      }
      NewestFirstCons(rows[0], rest);
      [rows[0]] + rest
  }

  /** The rows ordered newest first. */
  function ByNewest(rows: seq<Entry>): (r: seq<Entry>)
    ensures NewestFirst(r)
    ensures multiset(r) == multiset(rows)
    ensures |r| == |rows|
  {
    if rows == [] then []
    else
      assert rows == [rows[0]] + rows[1..];
      InsertByTime(rows[0], ByNewest(rows[1..]))
  }

  /** A prefix of a newest-first sequence is newest first. */
  lemma NewestFirstPrefix(rows: seq<Entry>, n: nat)
    requires NewestFirst(rows) && n <= |rows|
    ensures NewestFirst(rows[..n])
  {
    assert forall i :: 0 <= i < n ==> rows[..n][i] == rows[i];
  }

  /** Cutting a sequence in two splits its multiset. */
  lemma SplitMultiset(rows: seq<Entry>, n: nat)
    requires n <= |rows|
    ensures multiset(rows) == multiset(rows[..n]) + multiset(rows[n..])
  {
    assert rows == rows[..n] + rows[n..];
  }

  /** The entries the handler analyses: the user's, newest first, at most fifteen. */
  function Window(entries: seq<Entry>, u: UserId): (r: seq<Entry>)
    ensures |r| == if |OwnedBy(entries, u)| < WindowSize then |OwnedBy(entries, u)| else WindowSize
    ensures NewestFirst(r)
    ensures multiset(r) <= multiset(OwnedBy(entries, u))
  {
    var sorted := ByNewest(OwnedBy(entries, u));
    var n := if |sorted| < WindowSize then |sorted| else WindowSize;
    NewestFirstPrefix(sorted, n);
    SplitMultiset(sorted, n);
    sorted[..n]
  }

  /** In a newest-first sequence nothing after position `n` is newer than anything before it. */
  lemma NewestFirstSuffixIsOlder(rows: seq<Entry>, n: nat, x: Entry)
    requires NewestFirst(rows) && n <= |rows|
    requires x in rows[n..]
    ensures forall i :: 0 <= i < n ==> x.createdAt <= rows[i].createdAt
  {
    var j :| 0 <= j < |rows[n..]| && rows[n..][j] == x;
    forall i | 0 <= i < n
      ensures x.createdAt <= rows[i].createdAt
    {
      NewestFirstPairwise(rows, i, n + j);
    }
  }

  /** No entry of the user left out of the window is newer than any entry in it. */
  lemma WindowHoldsTheNewest(entries: seq<Entry>, u: UserId, x: Entry)
    requires x in multiset(OwnedBy(entries, u)) - multiset(Window(entries, u))
    ensures forall i :: 0 <= i < |Window(entries, u)| ==> x.createdAt <= Window(entries, u)[i].createdAt
  {
    var sorted := ByNewest(OwnedBy(entries, u));
    var w := Window(entries, u);
    var n := |w|;
    assert w == sorted[..n];
    SplitMultiset(sorted, n);
    assert x in multiset(sorted[n..]);
    NewestFirstSuffixIsOlder(sorted, n, x);
  }

  /** `entries.map(e => e.content).join('\n---\n')` */
  function EntriesText(entries: seq<Entry>): (r: string)
    ensures entries == [] ==> r == ""
    ensures |entries| == 1 ==> r == entries[0].payload
  {
    JsString.Join(Contents(entries), EntrySeparator)
  }

  /** Where the content of entry `k` begins in the joined text. */
  function EntryOffset(entries: seq<Entry>, k: nat): nat
    requires k < |entries|
  {
    JsString.PartOffset(Contents(entries), EntrySeparator, k)
  }

  /** Each entry's content stands in the text at its offset. */
  lemma EntriesTextPlacesEntry(entries: seq<Entry>, k: nat)
    requires k < |entries|
    ensures EntryOffset(entries, k) + |entries[k].payload| <= |EntriesText(entries)|
    ensures EntriesText(entries)[EntryOffset(entries, k)..EntryOffset(entries, k) + |entries[k].payload|] == entries[k].payload
  {
    var parts := Contents(entries);
    assert parts[k] == entries[k].payload;
    JsString.JoinHoldsPart(parts, EntrySeparator, k);
  }

  /** The separator follows the content of every entry but the last. */
  lemma EntriesTextSeparates(entries: seq<Entry>, k: nat)
    requires k + 1 < |entries|
    ensures var end := EntryOffset(entries, k) + |entries[k].payload|;
            end + |EntrySeparator| <= |EntriesText(entries)| && EntriesText(entries)[end..end + |EntrySeparator|] == EntrySeparator
  {
    var parts := Contents(entries);
    assert parts[k] == entries[k].payload;
    JsString.JoinSeparatorFollows(parts, EntrySeparator, k);
  }

  /** `items.map(item => ({ category, title, description, user_id }))` */
  function RowsFor(items: seq<Item>, u: UserId): (r: seq<ShellItem>)
    ensures |r| == |items|
    ensures forall k :: 0 <= k < |r| ==> r[k].userId == u && ItemOf(r[k]) == items[k]
  {
    if items == [] then []
    else [ShellItem(items[0].category, items[0].title, items[0].description, u)] + RowsFor(items[1..], u)
  }

  /** The extracted item a row was made from. */
  function ItemOf(row: ShellItem): Item
  {
    Item(row.category, row.title, row.description)
  }

  /**
   * `POST`. `reply` is the parsed answer of the extraction service (None when
   * the call or the JSON parse failed); `insertOk` is whether the insert
   * succeeded, whose error the handler does not look at. `prompt` is the text
   * sent to the service, None when no call was made.
   */
  method Post(db: Database, user: Option<UserId>, reply: Option<Reply>, insertOk: bool)
    returns (response: Response, prompt: Option<string>)
    requires db.Valid()
    modifies db
    ensures db.Valid()
    ensures db.entries == old(db.entries) && db.interviewResponses == old(db.interviewResponses)
    ensures db.dailyPages == old(db.dailyPages) && db.profiles == old(db.profiles)
    ensures db.shellCategories == old(db.shellCategories)
    ensures user.None? ==> response == Unauthorized && prompt.None? && unchanged(db)
    ensures user.Some? && ExtractionDisabled(old(db.profiles), user.value) ==>
              response == Disabled && prompt.None? && unchanged(db)
    ensures user.Some? && !ExtractionDisabled(old(db.profiles), user.value) ==>
      var window := Window(old(db.entries), user.value);
      if window == [] then
        response == NoEntries && prompt.None? && unchanged(db)
      else
        && prompt == Some(EntriesText(window))
        && (if reply.None? || reply.value.items.None? then
              response == Failed && unchanged(db)
            else
              var items := reply.value.items.value;
              && response == Extracted(|items|)
              && db.shellItems == old(db.shellItems) + (if items != [] && insertOk then RowsFor(items, user.value) else []))
  {
    prompt := None;
    if user.None? {
      return Unauthorized, None;
    }
    var u := user.value;
    if ExtractionDisabled(db.profiles, u) {
      return Disabled, None;
    }
    var window := Window(db.entries, u);
    if window == [] {
      return NoEntries, None;
    }
    prompt := Some(EntriesText(window));
    if reply.None? {
      return Failed, prompt;
    }
    var items := reply.value.items;
    if items.Some? && items.value != [] && insertOk {
      db.InsertShellItems(RowsFor(items.value, u));
    }
    if items.None? {
      // Reading `length` of the missing array throws.
      return Failed, prompt;
    }
    response := Extracted(|items.value|);
  }
}
