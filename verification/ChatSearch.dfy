/** Paged search in a conversation's messages. */
module ChatSearch {
  import opened Prelude

  datatype Error = NotParticipant

  datatype Message = Message(id: string, body: string, isText: bool, isDeleted: bool)

  const BATCH_SIZE := 200
  const MAX_BATCHES := 3
  const REACH := BATCH_SIZE * MAX_BATCHES

  /** What the query keeps of a conversation, newest first. */
  function Searchable(messages: seq<Message>): seq<Message> {
    if messages == [] then []
    else
      var last, rest := messages[|messages| - 1], Searchable(messages[..|messages| - 1]);
      if last.isText && !last.isDeleted then rest + [last] else rest
  }

  function IdOf(): Message -> string {
    (m: Message) => m.id
  }

  function IndexOf(rows: seq<Message>, id: string): (i: nat)
    ensures i <= |rows|
  {
    if rows == [] || rows[0].id == id then 0 else 1 + IndexOf(rows[1..], id)
  }

  /** One page: the first rows, or those after the row with the cursor's id. */
  function Page(rows: seq<Message>, cursor: Option<string>): seq<Message> {
    var start := if cursor.None? then 0 else Min(IndexOf(rows, cursor.value) + 1, |rows|);
    rows[start..Min(start + BATCH_SIZE, |rows|)]
  }

  predicate Includes(text: string, query: string) {
    exists i | 0 <= i <= |text| :: query <= text[i..]
  }

  /** `plain` decrypts a body and lowers its case. */
  function Matcher(plain: string -> string, query: string): Message -> bool {
    (m: Message) => Includes(plain(m.body), query)
  }

  function Matches(rows: seq<Message>, isMatch: Message -> bool): (r: seq<Message>)
    ensures |r| <= |rows|
  {
    if rows == [] then []
    else
      var last, rest := rows[|rows| - 1], Matches(rows[..|rows| - 1], isMatch);
      if isMatch(last) then rest + [last] else rest
  }

  function FirstOf(rows: seq<Message>, take: int): seq<Message> {
    rows[..Min(Max(take, 0), |rows|)]
  }

  function NewestOf(rows: seq<Message>): seq<Message> {
    rows[..Min(REACH, |rows|)]
  }

  /** The search without pages: the first `take` matches among the newest rows. */
  function Search(rows: seq<Message>, isMatch: Message -> bool, take: int): seq<Message> {
    FirstOf(Matches(NewestOf(rows), isMatch), take)
  }

  // ----- pages -----

  lemma {:induction false} SearchableIsDistinct(messages: seq<Message>)
    requires DistinctOn(messages, IdOf())
    ensures DistinctOn(Searchable(messages), IdOf())
    ensures forall m :: m in Searchable(messages) <==> m in messages && m.isText && !m.isDeleted
  {
    if messages != [] {
      var init := messages[..|messages| - 1];
      assert messages == init + [messages[|messages| - 1]];
      SearchableIsDistinct(init);
      forall i | 0 <= i < |Searchable(init)|
        ensures Searchable(init)[i] in init
      {
      }
    }
  }

  lemma {:induction false} IndexOfRow(rows: seq<Message>, k: nat)
    requires k < |rows| && DistinctOn(rows, IdOf())
    ensures IndexOf(rows, rows[k].id) == k
  {
    if k > 0 {
      assert IdOf()(rows[0]) != IdOf()(rows[k]);
      forall i, j | 0 <= i < j < |rows[1..]|
        ensures IdOf()(rows[1..][i]) != IdOf()(rows[1..][j])
      {
        assert rows[1..][i] == rows[i + 1] && rows[1..][j] == rows[j + 1];
      }
      IndexOfRow(rows[1..], k - 1);
    }
  }

  /** No row is skipped or repeated at a page border. */
  lemma PageContinues(rows: seq<Message>, read: nat)
    requires 0 < read <= |rows| && DistinctOn(rows, IdOf())
    ensures Page(rows, Some(rows[read - 1].id)) == rows[read..Min(read + BATCH_SIZE, |rows|)]
  {
    IndexOfRow(rows, read - 1);
  }

  // ----- the search, row by row -----

  lemma MatchesOneMore(rows: seq<Message>, n: nat, isMatch: Message -> bool)
    requires n < |rows|
    ensures
      var before := Matches(rows[..n], isMatch);
      Matches(rows[..n + 1], isMatch) == if isMatch(rows[n]) then before + [rows[n]] else before
  {
    assert rows[..n + 1][..n] == rows[..n];
  }

  lemma {:induction false} MatchesGrow(rows: seq<Message>, n: nat, m: nat, isMatch: Message -> bool)
    requires n <= m <= |rows|
    ensures Matches(rows[..n], isMatch) <= Matches(rows[..m], isMatch)
    decreases m
  {
    if n < m {
      MatchesGrow(rows, n, m - 1, isMatch);
      MatchesOneMore(rows, m - 1, isMatch);
    }
  }

  lemma {:induction false} MatchesAreDistinct(rows: seq<Message>, isMatch: Message -> bool)
    requires DistinctOn(rows, IdOf())
    ensures DistinctOn(Matches(rows, isMatch), IdOf())
    ensures forall m :: m in Matches(rows, isMatch) <==> m in rows && isMatch(m)
  {
    if rows != [] {
      var init := rows[..|rows| - 1];
      assert rows == init + [rows[|rows| - 1]];
      MatchesAreDistinct(init, isMatch);
      forall i | 0 <= i < |Matches(init, isMatch)|
        ensures Matches(init, isMatch)[i] in init
      {
      }
    }
  }

  /** A match comes after all newer matches. */
  lemma MatchIsAt(rows: seq<Message>, k: nat, n: nat, isMatch: Message -> bool)
    requires k < n <= |rows| && isMatch(rows[k])
    ensures
      var at, found := |Matches(rows[..k], isMatch)|, Matches(rows[..n], isMatch);
      at < |found| && found[at] == rows[k]
  {
    MatchesOneMore(rows, k, isMatch);
    MatchesGrow(rows, k + 1, n, isMatch);
  }

  lemma InFirstOf(found: seq<Message>, at: nat, take: int)
    requires DistinctOn(found, IdOf()) && at < |found|
    ensures found[at] in FirstOf(found, take) <==> at < take
  {
    if at < take {
      assert FirstOf(found, take)[at] == found[at];
    }
    if found[at] in FirstOf(found, take) {
      var i :| 0 <= i < |FirstOf(found, take)| && FirstOf(found, take)[i] == found[at];
      assert IdOf()(found[i]) == IdOf()(found[at]);
    }
  }

  lemma AmongTheFirst(rows: seq<Message>, k: nat, n: nat)
    requires DistinctOn(rows, IdOf()) && k < |rows| && n <= |rows|
    ensures rows[k] in rows[..n] <==> k < n
  {
    if k < n {
      assert rows[..n][k] == rows[k];
    }
    if rows[k] in rows[..n] {
      var i :| 0 <= i < n && rows[..n][i] == rows[k];
      assert IdOf()(rows[i]) == IdOf()(rows[k]);
    }
  }

  /** A match is found exactly when it is among the newest rows and fewer than `take` matches are newer. */
  lemma FoundExactlyWhen(rows: seq<Message>, k: nat, isMatch: Message -> bool, take: int)
    requires k < |rows| && DistinctOn(rows, IdOf())
    ensures rows[k] in Search(rows, isMatch, take) <==>
            isMatch(rows[k]) && k < 600 && |Matches(rows[..k], isMatch)| < take
  {
    var n := Min(REACH, |rows|);
    AmongTheFirst(rows, k, n);
    MatchesAreDistinct(rows[..n], isMatch);
    if k < n && isMatch(rows[k]) {
      MatchIsAt(rows, k, n, isMatch);
      InFirstOf(Matches(rows[..n], isMatch), |Matches(rows[..k], isMatch)|, take);
    }
  }

  /** Position `i` comes before position `j` in the rows they were taken from. */
  ghost predicate InRowOrder(taken: seq<Message>, rows: seq<Message>, i: nat, j: nat)
    requires i < |taken| && j < |taken|
  {
    exists a, b | 0 <= a < b < |rows| :: rows[a] == taken[i] && rows[b] == taken[j]
  }

  lemma {:induction false} MatchHasRow(rows: seq<Message>, isMatch: Message -> bool, i: nat)
    requires i < |Matches(rows, isMatch)|
    ensures Matches(rows, isMatch)[i] in rows
  {
    if i < |Matches(rows[..|rows| - 1], isMatch)| {
      MatchHasRow(rows[..|rows| - 1], isMatch, i);
    }
  }

  lemma {:induction false} MatchesInOrder(rows: seq<Message>, isMatch: Message -> bool, i: nat, j: nat)
    requires i < j < |Matches(rows, isMatch)|
    ensures InRowOrder(Matches(rows, isMatch), rows, i, j)
  {
    var init, last := rows[..|rows| - 1], rows[|rows| - 1];
    if j < |Matches(init, isMatch)| {
      MatchesInOrder(init, isMatch, i, j);
      var a, b :| 0 <= a < b < |init| && init[a] == Matches(init, isMatch)[i] && init[b] == Matches(init, isMatch)[j];
      assert rows[a] == Matches(rows, isMatch)[i] && rows[b] == Matches(rows, isMatch)[j];
    } else {
      MatchHasRow(init, isMatch, i);
      var a :| 0 <= a < |init| && init[a] == Matches(init, isMatch)[i];
      assert rows[a] == Matches(rows, isMatch)[i] && rows[|rows| - 1] == Matches(rows, isMatch)[j];
    }
  }

  lemma {:induction false} SearchableAreMatches(messages: seq<Message>)
    ensures Searchable(messages) == Matches(messages, (m: Message) => m.isText && !m.isDeleted)
  {
    if messages != [] { SearchableAreMatches(messages[..|messages| - 1]); }
  }

  /** A message matches when its readable text has the query somewhere. */
  lemma MatchMeans(plain: string -> string, query: string, m: Message)
    ensures Matcher(plain, query)(m) <==> exists before: string, rest: string :: plain(m.body) == before + query + rest
  {
    var text := plain(m.body);
    if Includes(text, query) {
      var i :| 0 <= i <= |text| && query <= text[i..];
      assert text == text[..i] + query + text[i + |query|..];
    }
    if before: string, rest: string :| text == before + query + rest {
      assert text[|before|..] == query + rest;
    }
  }

  /** What is found comes in the order of the conversation, newest first. */
  lemma FoundInOrder(messages: seq<Message>, isMatch: Message -> bool, take: int, i: nat, j: nat)
    requires i < j < |Search(Searchable(messages), isMatch, take)|
    ensures InRowOrder(Search(Searchable(messages), isMatch, take), messages, i, j)
  {
    var isText := (m: Message) => m.isText && !m.isDeleted;
    var rows := Searchable(messages);
    var newest := NewestOf(rows);
    MatchesInOrder(newest, isMatch, i, j);
    var found := Matches(newest, isMatch);
    var a, b :| 0 <= a < b < |newest| && newest[a] == found[i] && newest[b] == found[j];
    SearchableAreMatches(messages);
    MatchesInOrder(messages, isText, a, b);
  }

  /** What the search has found after `read` rows. */
  function FoundIn(rows: seq<Message>, read: nat, isMatch: Message -> bool, take: int): seq<Message>
    requires read <= |rows|
  {
    FirstOf(Matches(rows[..read], isMatch), take)
  }

  lemma OneMoreRow(rows: seq<Message>, read: nat, isMatch: Message -> bool, take: int)
    requires read < |rows| && |FoundIn(rows, read, isMatch, take)| < take
    ensures
      var before := FoundIn(rows, read, isMatch, take);
      FoundIn(rows, read + 1, isMatch, take) == if isMatch(rows[read]) then before + [rows[read]] else before
  {
    MatchesOneMore(rows, read, isMatch);
  }

  lemma Enough(rows: seq<Message>, read: nat, later: nat, isMatch: Message -> bool, take: int)
    requires read <= later <= |rows| && |FoundIn(rows, read, isMatch, take)| >= take
    ensures FoundIn(rows, later, isMatch, take) == FoundIn(rows, read, isMatch, take)
  {
    MatchesGrow(rows, read, later, isMatch);
  }

  function CursorAt(rows: seq<Message>, read: nat): Option<string>
    requires read <= |rows|
  {
    if read == 0 then None else Some(rows[read - 1].id)
  }

  /** How many of `n` rows the first pages hold. */
  function ReadBy(batch: nat, n: nat): (read: nat)
    ensures read <= n
  {
    Min(batch * BATCH_SIZE, n)
  }

  lemma PageAt(rows: seq<Message>, batch: nat)
    requires DistinctOn(rows, IdOf())
    ensures
      var read, next := ReadBy(batch, |rows|), ReadBy(batch + 1, |rows|);
      var page := Page(rows, CursorAt(rows, read));
      && read <= next && page == rows[read..next]
      && (page != [] ==> CursorAt(rows, next) == Some(page[|page| - 1].id))
      && (page == [] ==> read == |rows|)
  {
    var read := ReadBy(batch, |rows|);
    if read > 0 { PageContinues(rows, read); }
  }

  lemma NothingMore(rows: seq<Message>, batch: nat, isMatch: Message -> bool, take: int)
    requires batch <= MAX_BATCHES
    requires
      var read := ReadBy(batch, |rows|);
      batch == MAX_BATCHES || read == |rows| || |FoundIn(rows, read, isMatch, take)| >= take
    ensures FoundIn(rows, ReadBy(batch, |rows|), isMatch, take) == Search(rows, isMatch, take)
  {
    var read := ReadBy(batch, |rows|);
    if |FoundIn(rows, read, isMatch, take)| >= take {
      Enough(rows, read, Min(REACH, |rows|), isMatch, take);
    }
  }

  // ----- as the service runs it -----

  /** The loop over the messages of a page, the rows from `read` to `next`; it ends early when the result is full. */
  method SearchPage(ghost rows: seq<Message>, ghost read: nat, ghost next: nat, page: seq<Message>,
                    before: seq<Message>, isMatch: Message -> bool, take: int)
    returns (results: seq<Message>)
    requires read <= next <= |rows| && page == rows[read..next]
    requires |before| < take && before == FoundIn(rows, read, isMatch, take)
    ensures results == FoundIn(rows, next, isMatch, take)
  {
    results := before;
    var i := 0;
    while i < |page|
      invariant 0 <= i <= |page| && |results| < take
      invariant results == FoundIn(rows, read + i, isMatch, take)
    {
      OneMoreRow(rows, read + i, isMatch, take);
      if isMatch(page[i]) {
        results := results + [page[i]];
        if |results| >= take {
          Enough(rows, read + i + 1, next, isMatch, take);
          break;
        }
      }
      i := i + 1;
    }
  }

  /** The loop over pages of the rows that the query keeps. */
  method SearchPages(rows: seq<Message>, isMatch: Message -> bool, take: int) returns (results: seq<Message>)
    requires DistinctOn(rows, IdOf())
    ensures results == Search(rows, isMatch, take)
  {
    results := [];
    var cursor: Option<string> := None;
    var batch := 0;
    ghost var read := 0;
    while batch < MAX_BATCHES && |results| < take
      invariant 0 <= batch <= MAX_BATCHES && read == ReadBy(batch, |rows|)
      invariant cursor == CursorAt(rows, read)
      invariant results == FoundIn(rows, read, isMatch, take)
    {
      var page := Page(rows, cursor);
      PageAt(rows, batch);
      ghost var next := ReadBy(batch + 1, |rows|);
      if |page| == 0 { break; }
      cursor := Some(page[|page| - 1].id);
      results := SearchPage(rows, read, next, page, results, isMatch, take);
      read := next;
      batch := batch + 1;
    }
    NothingMore(rows, batch, isMatch, take);
  }

  /** The query text is trimmed and in lower case; messages come newest first with distinct ids. */
  method SearchMessages(participants: set<string>, user: string, messages: seq<Message>, plain: string -> string,
                        query: string, take: int)
    returns (r: Result<seq<Message>, Error>)
    requires DistinctOn(messages, IdOf())
    ensures r == if user !in participants then Failure(NotParticipant)
                 else if query == "" then Success([])
                 else Success(Search(Searchable(messages), Matcher(plain, query), take))
  {
    if user !in participants { return Failure(NotParticipant); }
    if query == "" { return Success([]); }
    SearchableIsDistinct(messages);
    var results := SearchPages(Searchable(messages), Matcher(plain, query), take);
    return Success(results);
  }
}
