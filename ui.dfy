/**
 * internal/ui/ui.go: the state of the interactive session picker and the key
 * handling that changes it.  The widgets (search line, info line, table, help
 * and status views) are not modelled; `stopped` stands for the call that ends
 * the application's event loop, and `pageSize` is the number of table rows
 * last drawn, supplied from outside.
 */
module Ui {
  import opened Wrappers
  import opened Text
  import opened Ordering
  import opened Paths
  import opened Sessions
  import Describe

  const DefaultPageLen: int := 10

  /** One table row: the session and the lower-case text the search runs against. */
  datatype Row = Row(session: Session, searchKey: string)

  /**
   * The search key of a session: id, working directory, last action and the
   * two instants (written by `format`, the RFC 3339 formatter), joined by
   * single spaces and lower-cased.
   */
  function SearchKey(s: Session, format: nat -> string): string {
    ToLower(Join([s.id, s.workingDir, s.lastAction, format(s.createdAt), format(s.updatedAt)], " "))
  }

  /**
   * The key starts with the lower-cased session id followed by a space, and
   * holds no upper-case ASCII letter.
   */
  lemma SearchKeyShape(s: Session, format: nat -> string)
    ensures Describe.IsPrefix(ToLower(s.id + " "), SearchKey(s, format))
    ensures forall i :: 0 <= i < |SearchKey(s, format)| ==> !('A' <= SearchKey(s, format)[i] <= 'Z')
  {
    var rest := [s.workingDir, s.lastAction, format(s.createdAt), format(s.updatedAt)];
    var parts := [s.id] + rest;
    assert parts[1..] == rest;
    var joined := Join(parts, " ");
    assert joined == s.id + " " + Join(rest, " ");
    ToLowerAppend(s.id + " ", Join(rest, " "));
  }

  /** One result of the fuzzy ranker: how far the key is from the query, and which key it is. */
  datatype Rank = Rank(distance: int, index: int)

  /** Ranks for `n` keys: each names a key, and no key is named twice. */
  predicate ValidRanks(ranks: seq<Rank>, n: nat) {
    (forall i :: 0 <= i < |ranks| ==> 0 <= ranks[i].index < n) &&
    (forall i, j :: 0 <= i < j < |ranks| ==> ranks[i].index != ranks[j].index)
  }

  /**
   * fuzzy.RankFindFold, of which only the shape of its result is known: the
   * keys matching the query, each at most once, with their distances.
   */
  type Ranker = f: (string, seq<string>) -> seq<Rank> | forall q, keys :: ValidRanks(f(q, keys), |keys|)
    witness (q: string, keys: seq<string>) => []

  /** The session a rank names (a default one for an index out of range). */
  function RankedSession(entries: seq<Row>, a: Rank): Session {
    if 0 <= a.index < |entries| then entries[a.index].session else Session([], 0, 0, [], [], [])
  }

  /**
   * The order of the filtered list: closer matches first, then the more
   * recently updated session, then the smaller id.
   */
  predicate Precedes(entries: seq<Row>, a: Rank, b: Rank) {
    var sa, sb := RankedSession(entries, a), RankedSession(entries, b);
    a.distance < b.distance ||
    (a.distance == b.distance &&
     (sa.updatedAt > sb.updatedAt || (sa.updatedAt == sb.updatedAt && StrLe(sa.id, sb.id))))
  }

  lemma PrecedesIsPreorder(entries: seq<Row>)
    ensures TotalPreorder((a, b) => Precedes(entries, a, b))
  {
    var le := (a, b) => Precedes(entries, a, b);
    forall a, b ensures le(a, b) || le(b, a) {
      StrLeTotal(RankedSession(entries, a).id, RankedSession(entries, b).id);
    }
    forall a, b, c | le(a, b) && le(b, c) ensures le(a, c) {
      var sa, sb, sc := RankedSession(entries, a), RankedSession(entries, b), RankedSession(entries, c);
      if a.distance == b.distance == c.distance && sa.updatedAt == sb.updatedAt == sc.updatedAt {
        StrLeTransitive(sa.id, sb.id, sc.id);
      }
    }
  }

  function Keys(entries: seq<Row>): (keys: seq<string>)
    ensures |keys| == |entries| && forall i :: 0 <= i < |entries| ==> keys[i] == entries[i].searchKey
  {
    if entries == [] then [] else Keys(entries[..|entries| - 1]) + [entries[|entries| - 1].searchKey]
  }

  function Indices(ranks: seq<Rank>): (r: seq<int>)
    ensures |r| == |ranks| && forall i :: 0 <= i < |ranks| ==> r[i] == ranks[i].index
  {
    if ranks == [] then [] else Indices(ranks[..|ranks| - 1]) + [ranks[|ranks| - 1].index]
  }

  function Range(n: nat): (r: seq<int>)
    ensures |r| == n && forall i :: 0 <= i < n ==> r[i] == i
  {
    if n == 0 then [] else Range(n - 1) + [n - 1]
  }

  /** The ranker's results for the trimmed query, in the order of the filtered list. */
  function Ranked(entries: seq<Row>, query: string, ranker: Ranker): seq<Rank> {
    PrecedesIsPreorder(entries);
    SortBy(ranker(TrimSpace(query), Keys(entries)), (a, b) => Precedes(entries, a, b))
  }

  /** applyFilter's list: every entry for a blank query, else the ranked matches. */
  function Filtered(entries: seq<Row>, query: string, ranker: Ranker): seq<int> {
    if entries == [] then []
    else if TrimSpace(query) == [] then Range(|entries|)
    else Indices(Ranked(entries, query, ranker))
  }

  /** A permutation of ranks with distinct indices has distinct indices. */
  lemma DistinctIndicesPermutation(a: seq<Rank>, b: seq<Rank>, n: nat)
    requires multiset(a) == multiset(b) && ValidRanks(a, n)
    ensures ValidRanks(b, n)
  {
    assert NoDup(a) by {
      forall i, j | 0 <= i < j < |a| ensures a[i] != a[j] {
        assert a[i].index != a[j].index;
      }
    }
    NoDupPermutation(a, b);
    forall i | 0 <= i < |b| ensures 0 <= b[i].index < n {
      assert b[i] in multiset(a);
    }
    forall i, j | 0 <= i < j < |b| ensures b[i].index != b[j].index {
      assert b[i] in multiset(a) && b[j] in multiset(a);
      var p :| 0 <= p < |a| && a[p] == b[i];
      var q :| 0 <= q < |a| && a[q] == b[j];
      assert p != q;
    }
  }

  /**
   * The filtered list names entries only, each at most once; a blank query
   * keeps every entry in order, and a query lists the ranker's matches
   * ordered by Precedes.
   */
  lemma FilteredShape(entries: seq<Row>, query: string, ranker: Ranker)
    ensures var f := Filtered(entries, query, ranker);
      (forall i :: 0 <= i < |f| ==> 0 <= f[i] < |entries|) && NoDup(f)
    ensures entries != [] && Blank(query) ==> Filtered(entries, query, ranker) == Range(|entries|)
    ensures entries != [] && !Blank(query) ==>
      var ranked := Ranked(entries, query, ranker);
      Filtered(entries, query, ranker) == Indices(ranked) &&
      multiset(ranked) == multiset(ranker(TrimSpace(query), Keys(entries))) &&
      SortedBy(ranked, (a, b) => Precedes(entries, a, b))
  {
    if entries != [] && !Blank(query) {
      var raw := ranker(TrimSpace(query), Keys(entries));
      var ranked := Ranked(entries, query, ranker);
      DistinctIndicesPermutation(raw, ranked, |entries|);
    }
  }

  /** The cursor correction of applyFilter and moveSelectionBy. */
  function Clamp(sel: int, n: nat): (r: int)
    ensures n == 0 ==> r == 0
    ensures n > 0 ==> 0 <= r < n
    ensures 0 <= sel < n ==> r == sel
    ensures n > 0 && sel >= n ==> r == n - 1
    ensures n > 0 && sel < 0 ==> r == 0
  {
    if n == 0 then 0 else if sel >= n then n - 1 else if sel < 0 then 0 else sel
  }

  /** dropLastRune: removes exactly one trailing rune, if there is one. */
  function DropLastRune(s: string): (r: string)
    ensures s == [] ==> r == []
    ensures s != [] ==> |r| == |s| - 1 && r + [s[|s| - 1]] == s
  {
    if s == [] then s else s[..|s| - 1]
  }

  lemma DropLastRuneUndoesTyping(q: string, c: char)
    ensures DropLastRune(q + [c]) == q
  {
    assert (q + [c])[..|q|] == q;
  }

  /**
   * truncateText: trims, shows a blank text as "-", and cuts a longer text to
   * `max` bytes, ending in "..." when there is room for it.
   */
  function TruncateText(text: string, max: nat): (r: string)
    ensures Blank(text) ==> r == "-"
    ensures !Blank(text) && |TrimSpace(text)| <= max ==> r == TrimSpace(text)
    ensures !Blank(text) && |TrimSpace(text)| > max && max <= 3 ==> r == TrimSpace(text)[..max]
    ensures !Blank(text) && |TrimSpace(text)| > max && max > 3 ==>
      |r| == max && r[max - 3..] == "..." && r[..max - 3] == TrimSpace(text)[..max - 3]
    ensures !Blank(text) ==> |r| <= max
  {
    var t := TrimSpace(text);
    if t == [] then "-"
    else if |t| <= max then t
    else if max <= 3 then t[..max]
    else t[..max - 3] + "..."
  }

  lemma TrimSpaceOfTrimmed(s: string)
    requires s != [] && !IsSpace(s[0]) && !IsSpace(s[|s| - 1])
    ensures TrimSpace(s) == s
  {
    assert TrimLeft(s) == s;
    assert TrimRight(s) == s;
  }

  /** With room for the ellipsis, truncating twice is truncating once. */
  lemma TruncateTextIdempotent(text: string, max: nat)
    requires max > 3
    ensures TruncateText(TruncateText(text, max), max) == TruncateText(text, max)
  {
    var r := TruncateText(text, max);
    if !Blank(text) {
      var t := TrimSpace(text);
      if |t| <= max {
        TrimSpaceOfTrimmed(t);
      } else {
        assert r[0] == t[0] && r[|r| - 1] == '.';
        TrimSpaceOfTrimmed(r);
      }
    } else {
      assert !IsSpace(r[0]);
      TrimSpaceOfTrimmed(r);
    }
  }

  /**
   * abbreviatePath as written: for `max > 3` a long path becomes "..." and its
   * last `max - 1` bytes.
   */
  function AbbreviatePathAsWritten(path: string, max: int): (r: string)
    ensures max <= 0 || |path| <= max ==> r == path
    ensures 0 < max <= 3 && |path| > max ==> r == path[..max]
    ensures max > 3 && |path| > max ==>
      |r| == max + 2 && r[..3] == "..." && r[3..] == path[|path| - (max - 1)..]
  {
    if max <= 0 then path
    else if |path| <= max then path
    else if max <= 3 then path[..max]
    else "..." + path[|path| - (max - 1)..]
  }

  lemma AbbreviatePathOverlongExample()
    ensures |AbbreviatePathAsWritten("/home/user/projects/codex", 10)| == 12
  {
  }

  /**
   * abbreviatePath as intended: a long path becomes "..." and as many of its
   * last bytes as fit in `max`.
   */
  function AbbreviatePath(path: string, max: int): (r: string)
    ensures max <= 0 || |path| <= max ==> r == path
    ensures max > 0 ==> |r| <= max
    ensures 0 < max <= 3 && |path| > max ==> r == path[..max]
    ensures max > 3 && |path| > max ==>
      |r| == max && r[..3] == "..." && r[3..] == path[|path| - (max - 3)..]
  {
    if max <= 0 then path
    else if |path| <= max then path
    else if max <= 3 then path[..max]
    else "..." + path[|path| - (max - 3)..]
  }

  /** The list applyFilter builds: the loops of the source. */
  method FilterList(entries: seq<Row>, query: string, ranker: Ranker) returns (result: seq<int>)
    ensures result == Filtered(entries, query, ranker)
    ensures forall i :: 0 <= i < |result| ==> 0 <= result[i] < |entries|
  {
    ghost var spec := Filtered(entries, query, ranker);
    assert forall i :: 0 <= i < |spec| ==> 0 <= spec[i] < |entries| by {
      FilteredShape(entries, query, ranker);
    }
    var q := TrimSpace(query);
    if q == [] {
      result := AllIndices(|entries|);
      return;
    }
    var keys := SearchKeys(entries);
    PrecedesIsPreorder(entries);
    var ranks := SortBy(ranker(q, keys), (a, b) => Precedes(entries, a, b));
    result := RankIndices(ranks);
  }

  /** The loop listing every entry, in order, for a blank query. */
  method AllIndices(n: nat) returns (result: seq<int>)
    ensures result == Range(n)
  {
    result := [];
    for i := 0 to n
      invariant result == Range(i)
    {
      result := result + [i];
    }
  }

  /** The loop collecting the search key of every entry for the ranker. */
  method SearchKeys(entries: seq<Row>) returns (keys: seq<string>)
    ensures keys == Keys(entries)
  {
    keys := [];
    for i := 0 to |entries|
      invariant keys == Keys(entries[..i])
    {
      assert entries[..i + 1][..i] == entries[..i];
      keys := keys + [entries[i].searchKey];
    }
    assert entries[..|entries|] == entries;
  }

  /** The loop appending the entry index of every ranked match, in order. */
  method RankIndices(ranks: seq<Rank>) returns (result: seq<int>)
    ensures result == Indices(ranks)
  {
    result := [];
    for i := 0 to |ranks|
      invariant result == Indices(ranks[..i])
    {
      assert ranks[..i + 1][..i] == ranks[..i];
      result := result + [ranks[i].index];
    }
    assert ranks[..|ranks|] == ranks;
  }

  /** A keypress, as the input capture sees it. */
  datatype Key = Rune(r: char) | Backspace | Backspace2 | Esc | Enter | Del | PgDn | PgUp | CtrlC | OtherKey

  /** The text os.Remove's error gives for a failure cause. */
  function CauseText(c: Outcome): string {
    match c
    case NotEmpty => "directory not empty"
    case Denied => "permission denied"
    case NotExist => "no such file or directory"
    case Removed => ""
  }

  /** One joined error of DeleteFiles: "remove <path>: " and the os.Remove error. */
  function ErrorLine(e: DeleteError): string {
    "remove " + e.path + ": remove " + e.path + ": " + CauseText(e.cause)
  }

  /** The message line of each failure, in order. */
  function ErrorLines(errs: seq<DeleteError>): (r: seq<string>)
    ensures |r| == |errs|
    ensures forall i :: 0 <= i < |errs| ==> r[i] == ErrorLine(errs[i])
  {
    if errs == [] then []
    else ErrorLines(errs[..|errs| - 1]) + [ErrorLine(errs[|errs| - 1])]
  }

  /** errors.Join of the failures: every failure's line, in order, separated by newlines. */
  function ErrorText(errs: seq<DeleteError>): (r: string)
    requires errs != []
    ensures r == Text.Join(ErrorLines(errs), "\n")
    ensures Describe.IsPrefix(ErrorLine(errs[0]), r)
  {
    if |errs| == 1 then ErrorLine(errs[0])
    else
      var init := ErrorText(errs[..|errs| - 1]);
      assert errs[..|errs| - 1][0] == errs[0];
      Text.JoinSnoc(ErrorLines(errs[..|errs| - 1]), ErrorLine(errs[|errs| - 1]), "\n");
      init + "\n" + ErrorLine(errs[|errs| - 1])
  }

  /** The picker state of ui.go's model struct. */
  class Model {
    var entries: seq<Row>
    var filtered: seq<int>
    var selected: int
    var pageSize: int
    var query: string
    var status: string
    var resumeID: string
    var stopped: bool
    const sessionsRoot: string
    const ranker: Ranker

    /** The cursor names a filtered row, and every filtered row names an entry. */
    predicate Valid()
      reads this
    {
      (forall i :: 0 <= i < |filtered| ==> 0 <= filtered[i] < |entries|) &&
      (filtered == [] ==> selected == 0) &&
      (filtered != [] ==> 0 <= selected < |filtered|)
    }

    /** newModel: one row per session, in order; nothing filtered yet. */
    constructor (items: seq<Session>, sessionsRoot: string, initialStatus: string, ranker: Ranker, format: nat -> string)
      ensures |entries| == |items|
      ensures forall i :: 0 <= i < |items| ==> entries[i] == Row(items[i], SearchKey(items[i], format))
      ensures filtered == [] && selected == 0 && pageSize == DefaultPageLen
      ensures query == [] && status == initialStatus && resumeID == [] && !stopped
      ensures this.sessionsRoot == sessionsRoot && this.ranker == ranker
      ensures Valid()
    {
      var rows: seq<Row> := [];
      for i := 0 to |items|
        invariant |rows| == i
        invariant forall j :: 0 <= j < i ==> rows[j] == Row(items[j], SearchKey(items[j], format))
      {
        rows := rows + [Row(items[i], SearchKey(items[i], format))];
      }
      entries := rows;
      filtered := [];
      selected := 0;
      pageSize := DefaultPageLen;
      query := [];
      status := initialStatus;
      this.sessionsRoot := sessionsRoot;
      resumeID := [];
      stopped := false;
      this.ranker := ranker;
    }

    /** applyFilter: recomputes the filtered list and pulls the cursor back into it. */
    method ApplyFilter()
      modifies this
      ensures filtered == Filtered(old(entries), old(query), ranker)
      ensures selected == Clamp(old(selected), |filtered|)
      ensures entries == old(entries) && query == old(query) && status == old(status)
      ensures resumeID == old(resumeID) && stopped == old(stopped) && pageSize == old(pageSize)
      ensures Valid()
    {
      if |entries| == 0 {
        filtered := [];
        selected := 0;
        return;
      }
      var f := FilterList(entries, query, ranker);
      filtered := f;
      if |filtered| == 0 {
        selected := 0;
        return;
      }
      if selected >= |filtered| {
        selected := |filtered| - 1;
      }
      if selected < 0 {
        selected := 0;
      }
    }

    /** moveSelectionBy: moves the cursor, stopping at either end of the list. */
    method MoveSelectionBy(delta: int)
      modifies this
      ensures filtered == [] ==> selected == old(selected)
      ensures filtered != [] ==> selected == Clamp(old(selected) + delta, |filtered|)
      ensures entries == old(entries) && filtered == old(filtered) && query == old(query) && status == old(status)
      ensures resumeID == old(resumeID) && stopped == old(stopped) && pageSize == old(pageSize)
      ensures old(Valid()) ==> Valid()
    {
      if |filtered| == 0 {
        return;
      }
      var next := selected + delta;
      if next < 0 {
        next := 0;
      } else if next >= |filtered| {
        next := |filtered| - 1;
      }
      selected := next;
    }

    /**
     * deleteSelected: deletes the files of the session under the cursor; on
     * success drops its row, reports it and re-filters, and on failure reports
     * the joined errors and keeps every row.
     */
    method DeleteSelected(fs: FileSystem)
      requires Valid()
      modifies this, fs
      ensures old(filtered) == [] ==>
        status == "Nothing to delete" && fs.State() == old(fs.State()) &&
        entries == old(entries) && filtered == old(filtered) && selected == old(selected)
      ensures old(filtered) != [] ==>
        var idx := old(filtered)[old(selected)];
        var sess := old(entries)[idx].session;
        var d := Delete(old(fs.State()), sess.filePaths, PathOf(sessionsRoot));
        fs.State() == d.0 &&
        (d.1 != [] ==>
          status == "Delete failed: " + ErrorText(d.1) &&
          entries == old(entries) && filtered == old(filtered) && selected == old(selected)) &&
        (d.1 == [] ==>
          status == "Session " + sess.id + " deleted" &&
          entries == old(entries)[..idx] + old(entries)[idx + 1..] &&
          filtered == Filtered(entries, query, ranker) && selected == Clamp(old(selected), |filtered|))
      ensures query == old(query) && resumeID == old(resumeID) && stopped == old(stopped) && pageSize == old(pageSize)
      ensures Valid()
    {
      if |filtered| == 0 {
        status := "Nothing to delete";
        return;
      }
      var idx := filtered[selected];
      var sess := entries[idx].session;
      ghost var d := Delete(fs.State(), sess.filePaths, PathOf(sessionsRoot));
      var errs, tried := DeleteFiles(sess, sessionsRoot, fs);
      assert errs == d.1 && fs.State() == d.0;
      if errs != [] {
        status := "Delete failed: " + ErrorText(errs);
        return;
      }
      entries := entries[..idx] + entries[idx + 1..];
      status := "Session " + sess.id + " deleted";
      ApplyFilter();
    }

    /**
     * handleEvent: the key bindings.  `passed` is true when the key is handed
     * back to the table widget instead of being consumed.
     */
    method HandleEvent(key: Key, fs: FileSystem) returns (passed: bool)
      requires Valid()
      modifies this, fs
      ensures passed <==> key.OtherKey? || (key.Rune? && IsControl(key.r))
      ensures !key.Del? ==> fs.State() == old(fs.State()) && status == old(status)
      ensures !key.Del? ==> entries == old(entries)
      ensures key.Rune? && IsControl(key.r) ==>
        query == old(query) && filtered == old(filtered) && selected == old(selected) && !stopped == !old(stopped)
      ensures key.Rune? && !IsControl(key.r) ==>
        query == old(query) + [key.r] && filtered == Filtered(entries, query, ranker) &&
        selected == Clamp(old(selected), |filtered|) && stopped == old(stopped)
      ensures (key.Backspace? || key.Backspace2?) && old(query) == [] ==>
        query == [] && filtered == old(filtered) && selected == old(selected) && stopped == old(stopped)
      ensures (key.Backspace? || key.Backspace2?) && old(query) != [] ==>
        query == DropLastRune(old(query)) && filtered == Filtered(entries, query, ranker) &&
        selected == Clamp(old(selected), |filtered|) && stopped == old(stopped)
      ensures key.Esc? && old(query) != [] ==>
        query == [] && filtered == Filtered(entries, [], ranker) &&
        selected == Clamp(old(selected), |filtered|) && stopped == old(stopped) && resumeID == old(resumeID)
      ensures key.Esc? && old(query) == [] ==>
        stopped && resumeID == [] && query == [] && filtered == old(filtered) && selected == old(selected)
      ensures key.Enter? ==> query == old(query) && filtered == old(filtered) && selected == old(selected)
      ensures key.Enter? && old(filtered) == [] ==> stopped == old(stopped) && resumeID == old(resumeID)
      ensures key.Enter? && old(filtered) != [] ==>
        stopped && resumeID == old(entries)[old(filtered)[old(selected)]].session.id
      ensures (key.PgDn? || key.PgUp?) && filtered != [] ==>
        selected == Clamp(old(selected) + (if key.PgDn? then pageSize else -pageSize), |filtered|)
      ensures (key.PgDn? || key.PgUp?) && filtered == [] ==> selected == old(selected)
      ensures (key.PgDn? || key.PgUp?) ==> filtered == old(filtered) && query == old(query) && stopped == old(stopped)
      ensures key.CtrlC? ==>
        stopped && resumeID == [] && query == old(query) && filtered == old(filtered) && selected == old(selected)
      ensures key.Del? && old(filtered) == [] ==>
        status == "Nothing to delete" && fs.State() == old(fs.State()) &&
        entries == old(entries) && filtered == old(filtered) && selected == old(selected)
      ensures key.Del? && old(filtered) != [] ==>
        var idx := old(filtered)[old(selected)];
        var sess := old(entries)[idx].session;
        var d := Delete(old(fs.State()), sess.filePaths, PathOf(sessionsRoot));
        fs.State() == d.0 &&
        (d.1 != [] ==>
          status == "Delete failed: " + ErrorText(d.1) &&
          entries == old(entries) && filtered == old(filtered) && selected == old(selected)) &&
        (d.1 == [] ==>
          status == "Session " + sess.id + " deleted" &&
          entries == old(entries)[..idx] + old(entries)[idx + 1..] &&
          filtered == Filtered(entries, query, ranker) && selected == Clamp(old(selected), |filtered|))
      ensures key.Del? ==> query == old(query)
      ensures key.OtherKey? ==>
        query == old(query) && filtered == old(filtered) && selected == old(selected) &&
        stopped == old(stopped) && resumeID == old(resumeID)
      ensures !key.Enter? && !key.Esc? && !key.CtrlC? ==> stopped == old(stopped) && resumeID == old(resumeID)
      ensures pageSize == old(pageSize)
      ensures Valid()
    {
      match key {
        case Rune(r) =>
          if IsControl(r) {
            return true;
          }
          query := query + [r];
          ApplyFilter();
          return false;
        case Backspace =>
          if query != [] {
            query := DropLastRune(query);
            ApplyFilter();
          }
          return false;
        case Backspace2 =>
          if query != [] {
            query := DropLastRune(query);
            ApplyFilter();
          }
          return false;
        case Esc =>
          if query != [] {
            query := [];
            ApplyFilter();
            return false;
          }
          resumeID := [];
          stopped := true;
          return false;
        case Enter =>
          if |filtered| == 0 {
            return false;
          }
          var idx := filtered[selected];
          resumeID := entries[idx].session.id;
          stopped := true;
          return false;
        case Del =>
          DeleteSelected(fs);
          return false;
        case PgDn =>
          MoveSelectionBy(pageSize);
          return false;
        case PgUp =>
          MoveSelectionBy(-pageSize);
          return false;
        case CtrlC =>
          resumeID := [];
          stopped := true;
          return false;
        case OtherKey =>
          return true;
      }
    }
  }

  /** The splice of deleteSelected drops exactly the row at `idx` and keeps the others in order. */
  lemma SpliceDropsOne(rows: seq<Row>, idx: nat)
    requires idx < |rows|
    ensures var r := rows[..idx] + rows[idx + 1..];
      |r| == |rows| - 1 &&
      (forall i :: 0 <= i < idx ==> r[i] == rows[i]) &&
      (forall i :: idx <= i < |r| ==> r[i] == rows[i + 1]) &&
      multiset(r) + multiset{rows[idx]} == multiset(rows)
  {
    assert rows == rows[..idx] + [rows[idx]] + rows[idx + 1..];
  }
}
