/** The helpers of the canvas page: turning gateway chat history into output lines, merging
    it with lines still pending on a tile, prefixing a workspace hint to outgoing messages,
    locating the tile an event is about, and the run lifecycle driven by `agent` events. */
module CanvasPage {
  import opened Strings
  import opened Types
  import opened CanvasStore

  // ---------------------------------------------------------------------------------------
  // Chat history

  /** How a history message is read: its role (`message.role` when it is a string) and its
      text. */
  datatype HistoryReader<!M> = HistoryReader(role: M -> Option<string>, text: M -> string)

  /** The page's reader: the text is `stripUiMetadata(extractText(message)?.trim() ?? "")`,
      where `extractText` and `stripUiMetadata` are the page's collaborators of those names. */
  function PageReader<M(!new)>(role: M -> Option<string>, extractText: M -> Option<string>,
                         stripUiMetadata: string -> string): (rd: HistoryReader<M>)
    ensures rd.role == role
    ensures forall m :: rd.text(m) == stripUiMetadata(Trim(extractText(m).GetOr("")))
  {
    HistoryReader(role, m => stripUiMetadata(Trim(extractText(m).GetOr(""))))
  }

  function MessageRole<M>(m: M, rd: HistoryReader<M>): (r: string)
  {
    rd.role(m).GetOr("other")
  }

  /** The line one message contributes: `> text` for a user, the text for an assistant,
      nothing for other roles or an empty text. */
  function LineOf<M>(m: M, rd: HistoryReader<M>): (r: seq<string>)
  {
    var text := rd.text(m);
    if text == "" then []
    else if MessageRole(m, rd) == "user" then ["> " + text]
    else if MessageRole(m, rd) == "assistant" then [text]
    else []
  }

  /** All lines of the history, before adjacent duplicates are dropped. */
  function HistoryLines<M>(ms: seq<M>, rd: HistoryReader<M>): (r: seq<string>)
  {
    if ms == [] then [] else HistoryLines(ms[..|ms| - 1], rd) + LineOf(ms[|ms| - 1], rd)
  }

  /** The text of the last assistant message with a non-empty text. */
  function LastAssistant<M>(ms: seq<M>, rd: HistoryReader<M>): (r: Option<string>)
  {
    if ms == [] then None
    else
      var m := ms[|ms| - 1];
      if rd.text(m) != "" && MessageRole(m, rd) == "assistant" then Some(rd.text(m))
      else LastAssistant(ms[..|ms| - 1], rd)
  }

  /** The role of the last message that contributed a line. */
  function LastRole<M>(ms: seq<M>, rd: HistoryReader<M>): (r: Option<string>)
  {
    if ms == [] then None
    else
      var m := ms[|ms| - 1];
      if LineOf(m, rd) != [] then Some(MessageRole(m, rd)) else LastRole(ms[..|ms| - 1], rd)
  }

  /** Keeps a line only when it differs from the last line kept. */
  function Dedup(lines: seq<string>): (r: seq<string>)
  {
    if lines == [] then []
    else
      var d := Dedup(lines[..|lines| - 1]);
      if d != [] && d[|d| - 1] == lines[|lines| - 1] then d else d + [lines[|lines| - 1]]
  }

  predicate NoAdjacentDuplicates(lines: seq<string>)
  {
    forall k | 0 < k < |lines| :: lines[k - 1] != lines[k]
  }

  predicate IsAssistantText<M>(m: M, rd: HistoryReader<M>)
  {
    rd.text(m) != "" && MessageRole(m, rd) == "assistant"
  }

  datatype HistorySummary = HistorySummary(
    lines: seq<string>,
    lastAssistant: Option<string>,
    lastRole: Option<string>)

  /** How the history functions grow by one message. */
  lemma HistoryStep<M>(ms: seq<M>, i: nat, rd: HistoryReader<M>)
    requires i < |ms|
    ensures var m := ms[i];
            && HistoryLines(ms[..i + 1], rd) == HistoryLines(ms[..i], rd) + LineOf(m, rd)
            && LastAssistant(ms[..i + 1], rd) ==
                 (if IsAssistantText(m, rd) then Some(rd.text(m)) else LastAssistant(ms[..i], rd))
            && LastRole(ms[..i + 1], rd) ==
                 (if LineOf(m, rd) != [] then Some(MessageRole(m, rd)) else LastRole(ms[..i], rd))
  {
    assert ms[..i + 1][..i] == ms[..i];
  }

  lemma DedupStep(lines: seq<string>, k: nat)
    requires k < |lines|
    ensures var d := Dedup(lines[..k]);
            Dedup(lines[..k + 1]) == if d != [] && d[|d| - 1] == lines[k] then d else d + [lines[k]]
  {
    assert lines[..k + 1][..k] == lines[..k];
  }

  /** The second pass of `buildHistoryLines`: a line is pushed unless it equals the last line
      pushed. */
  method DedupLines(lines: seq<string>) returns (deduped: seq<string>)
    ensures deduped == Dedup(lines)
  {
    deduped := [];
    for k := 0 to |lines|
      invariant deduped == Dedup(lines[..k])
    {
      DedupStep(lines, k);
      if !(deduped != [] && deduped[|deduped| - 1] == lines[k]) {
        deduped := deduped + [lines[k]];
      }
    }
    assert lines[..|lines|] == lines;
  }

  /** `buildHistoryLines`: one pass collecting lines, then one pass dropping repeats. */
  method BuildHistoryLines<M>(messages: seq<M>, rd: HistoryReader<M>) returns (r: HistorySummary)
    ensures r.lines == Dedup(HistoryLines(messages, rd))
    ensures r.lastAssistant == LastAssistant(messages, rd)
    ensures r.lastRole == LastRole(messages, rd)
  {
    var lines: seq<string> := [];
    var lastAssistant: Option<string> := None;
    var lastRole: Option<string> := None;
    for i := 0 to |messages|
      invariant lines == HistoryLines(messages[..i], rd)
      invariant lastAssistant == LastAssistant(messages[..i], rd)
      invariant lastRole == LastRole(messages[..i], rd)
    {
      var m := messages[i];
      HistoryStep(messages, i, rd);
      var role := MessageRole(m, rd);
      var text := rd.text(m);
      if text != "" {
        if role == "user" {
          lines := lines + ["> " + text];
          lastRole := Some("user");
        } else if role == "assistant" {
          lines := lines + [text];
          lastAssistant := Some(text);
          lastRole := Some("assistant");
        }
      }
    }
    assert messages[..|messages|] == messages;
    var deduped := DedupLines(lines);
    r := HistorySummary(deduped, lastAssistant, lastRole);
  }

  /** The de-duplicated lines never repeat a line twice in a row, and the last line survives. */
  lemma {:induction false} DedupNoAdjacent(lines: seq<string>)
    ensures NoAdjacentDuplicates(Dedup(lines))
    ensures lines != [] ==> Dedup(lines) != [] && Dedup(lines)[|Dedup(lines)| - 1] == lines[|lines| - 1]
  {
    if lines != [] {
      DedupNoAdjacent(lines[..|lines| - 1]);
    }
  }

  /** De-duplication drops only repeats: the same lines occur, in the same order. */
  lemma {:induction false} DedupSameLines(lines: seq<string>)
    ensures |Dedup(lines)| <= |lines|
    ensures forall x :: x in Dedup(lines) <==> x in lines
  {
    if lines != [] {
      var init := lines[..|lines| - 1];
      DedupSameLines(init);
      DedupNoAdjacent(init);
      assert lines == init + [lines[|lines| - 1]];
    }
  }

  /** Lines without adjacent repeats pass through unchanged; so de-duplicating twice is
      de-duplicating once. */
  lemma {:induction false} DedupFixed(lines: seq<string>)
    requires NoAdjacentDuplicates(lines)
    ensures Dedup(lines) == lines
  {
    if lines != [] {
      var init := lines[..|lines| - 1];
      assert NoAdjacentDuplicates(init) by {
        forall k | 0 < k < |init| ensures init[k - 1] != init[k] {
          assert init[k - 1] == lines[k - 1] && init[k] == lines[k];
        }
      }
      DedupFixed(init);
      if init != [] {
        assert init[|init| - 1] == lines[|lines| - 2];
      }
    }
  }

  /** The line `m` contributes is `l`: `> text` for a user message, the text for an
      assistant message, and only when the text is not empty. */
  predicate LineFrom<M>(l: string, m: M, rd: HistoryReader<M>)
  {
    && rd.text(m) != ""
    && ((MessageRole(m, rd) == "user" && l == "> " + rd.text(m)) ||
        (MessageRole(m, rd) == "assistant" && l == rd.text(m)))
  }

  /** Every history line is `> text` of a user message or the text of an assistant message. */
  lemma {:induction false} HistoryLineOrigins<M>(ms: seq<M>, rd: HistoryReader<M>)
    ensures forall l | l in HistoryLines(ms, rd) :: exists k | 0 <= k < |ms| :: LineFrom(l, ms[k], rd)
  {
    if ms != [] {
      var n := |ms| - 1;
      var init := ms[..n];
      HistoryLineOrigins(init, rd);
      forall l | l in HistoryLines(ms, rd) ensures exists k | 0 <= k < |ms| :: LineFrom(l, ms[k], rd) {
        if l in HistoryLines(init, rd) {
          var k :| 0 <= k < |init| && LineFrom(l, init[k], rd);
          assert init[k] == ms[k];
        } else {
          assert l in LineOf(ms[n], rd);
          assert LineFrom(l, ms[n], rd);
        }
      }
    }
  }

  /** `lastAssistant` is the text of the last assistant message with text (the one at index
      `k`), and none is reported exactly when there is no such message. */
  lemma {:induction false} LastAssistantIndex<M>(ms: seq<M>, rd: HistoryReader<M>) returns (k: int)
    ensures -1 <= k < |ms|
    ensures k == -1 <==> LastAssistant(ms, rd).None?
    ensures k >= 0 ==> IsAssistantText(ms[k], rd) && LastAssistant(ms, rd) == Some(rd.text(ms[k]))
    ensures forall l | k < l < |ms| :: !IsAssistantText(ms[l], rd)
  {
    if ms == [] {
      k := -1;
    } else {
      var n := |ms| - 1;
      var init := ms[..n];
      if IsAssistantText(ms[n], rd) {
        k := n;
      } else {
        k := LastAssistantIndex(init, rd);
        forall l | k < l < |ms| ensures !IsAssistantText(ms[l], rd) {
          if l < n { assert ms[l] == init[l]; }
        }
      }
    }
  }

  // ---------------------------------------------------------------------------------------
  // Merging history with pending lines

  /** The first index at or after `from` holding `line`, or -1. */
  function FindFrom(merged: seq<string>, from: nat, line: string): (r: int)
    requires from <= |merged|
    ensures r == -1 || (from <= r < |merged| && merged[r] == line)
    ensures r == -1 <==> forall k | from <= k < |merged| :: merged[k] != line
    ensures r != -1 ==> forall k | from <= k < r :: merged[k] != line
    decreases |merged| - from
  {
    if from == |merged| then -1
    else if merged[from] == line then from
    else FindFrom(merged, from + 1, line)
  }

  /** The merge from a given state: each pending line either advances the cursor past its
      first match at or after the cursor, or (when it is an unmatched `> ` line) is inserted
      at the cursor; other unmatched lines are dropped. */
  function MergeFrom(merged: seq<string>, cursor: nat, pending: seq<string>): (r: seq<string>)
    requires cursor <= |merged|
    decreases |pending|
  {
    if pending == [] then merged
    else
      var line := pending[0];
      var found := FindFrom(merged, cursor, line);
      if found != -1 then MergeFrom(merged, found + 1, pending[1..])
      else if StartsWith(line, "> ") then
        MergeFrom(merged[..cursor] + [line] + merged[cursor..], cursor + 1, pending[1..])
      else MergeFrom(merged, cursor, pending[1..])
  }

  /** `mergeHistoryWithPending`. */
  method MergeHistoryWithPending(historyLines: seq<string>, currentLines: seq<string>)
    returns (merged: seq<string>)
    ensures currentLines == [] || historyLines == [] ==> merged == historyLines
    ensures currentLines != [] && historyLines != [] ==> merged == MergeFrom(historyLines, 0, currentLines)
  {
    if |currentLines| == 0 { return historyLines; }
    if |historyLines| == 0 { return historyLines; }
    merged := historyLines;
    var cursor := 0;
    for n := 0 to |currentLines|
      invariant cursor <= |merged|
      invariant MergeFrom(merged, cursor, currentLines[n..]) == MergeFrom(historyLines, 0, currentLines)
    {
      var line := currentLines[n];
      assert currentLines[n..][1..] == currentLines[n + 1..];
      var foundIndex := -1;
      var i := cursor;
      while i < |merged|
        invariant cursor <= i <= |merged|
        invariant foundIndex == -1 ==> FindFrom(merged, cursor, line) == FindFrom(merged, i, line)
        invariant foundIndex != -1 ==> foundIndex == FindFrom(merged, cursor, line)
        decreases |merged| - i
      {
        if merged[i] == line {
          foundIndex := i;
          break;
        }
        i := i + 1;
      }
      if foundIndex != -1 {
        cursor := foundIndex + 1;
      } else if StartsWith(line, "> ") {
        merged := merged[..cursor] + [line] + merged[cursor..];
        cursor := cursor + 1;
      }
    }
  }

  /** The lines of `xs` whose tag is `want`. */
  function Kept(xs: seq<string>, tags: seq<bool>, want: bool): (r: seq<string>)
    requires |tags| == |xs|
    ensures |r| <= |xs|
  {
    if xs == [] then [] else (if tags[0] == want then [xs[0]] else []) + Kept(xs[1..], tags[1..], want)
  }

  /** With every tag equal to `want`, all lines are kept for `want` and none for the other. */
  lemma {:induction false} KeptAll(xs: seq<string>, tags: seq<bool>, want: bool)
    requires |tags| == |xs| && forall k | 0 <= k < |tags| :: tags[k] == want
    ensures Kept(xs, tags, want) == xs
    ensures Kept(xs, tags, !want) == []
  {
    if xs != [] {
      KeptAll(xs[1..], tags[1..], want);
    }
  }

  /** Splicing a line tagged as inserted (`true`) in at the cursor leaves the original
      (`false`) lines as they were and, when nothing after the cursor was inserted, puts the
      new line last among the inserted ones. */
  lemma {:induction false} InsertKept(merged: seq<string>, inserted: seq<bool>, cursor: nat, line: string)
    requires cursor <= |merged| && |inserted| == |merged|
    requires forall k | cursor <= k < |merged| :: !inserted[k]
    ensures var m2 := merged[..cursor] + [line] + merged[cursor..];
            var t2 := inserted[..cursor] + [true] + inserted[cursor..];
            && Kept(m2, t2, false) == Kept(merged, inserted, false)
            && Kept(m2, t2, true) == Kept(merged, inserted, true) + [line]
  {
    var m2 := merged[..cursor] + [line] + merged[cursor..];
    var t2 := inserted[..cursor] + [true] + inserted[cursor..];
    if cursor == 0 {
      assert m2[1..] == merged && t2[1..] == inserted;
      KeptAll(merged, inserted, false);
    } else {
      InsertKept(merged[1..], inserted[1..], cursor - 1, line);
      assert m2[0] == merged[0] && t2[0] == inserted[0];
      assert m2[1..] == merged[1..][..cursor - 1] + [line] + merged[1..][cursor - 1..];
      assert t2[1..] == inserted[1..][..cursor - 1] + [true] + inserted[1..][cursor - 1..];
    }
  }

  /** Inserting a `> ` line keeps every inserted line a `> ` line. */
  lemma InsertUntagged(merged: seq<string>, inserted: seq<bool>, cursor: nat, line: string)
    requires cursor <= |merged| && |inserted| == |merged| && StartsWith(line, "> ")
    requires forall k | 0 <= k < |merged| && inserted[k] :: StartsWith(merged[k], "> ")
    ensures var m2 := merged[..cursor] + [line] + merged[cursor..];
            var t2 := inserted[..cursor] + [true] + inserted[cursor..];
            forall k | 0 <= k < |m2| && t2[k] :: StartsWith(m2[k], "> ")
  {
    var m2 := merged[..cursor] + [line] + merged[cursor..];
    var t2 := inserted[..cursor] + [true] + inserted[cursor..];
    forall k | 0 <= k < |m2| && t2[k] ensures StartsWith(m2[k], "> ") {
      if k < cursor {
        assert m2[k] == merged[k] && t2[k] == inserted[k];
      } else if k > cursor {
        assert m2[k] == merged[k - 1] && t2[k] == inserted[k - 1];
      }
    }
  }

  /** What a merge from `merged` (with its inserted lines flagged in `inserted`) over `pending`
      accounts for in its result `r`, flagged in `resultInserted`: the unflagged lines are the
      unflagged lines started from; the flagged lines are the flagged lines started from
      followed by the `chosen` pending lines; chosen and flagged lines are `> ` lines; at most
      one line is added per pending line. */
  ghost predicate MergeAccounts(merged: seq<string>, inserted: seq<bool>, pending: seq<string>,
                                r: seq<string>, resultInserted: seq<bool>, chosen: seq<bool>)
  {
    && |inserted| == |merged| && |resultInserted| == |r| && |chosen| == |pending|
    && Kept(r, resultInserted, false) == Kept(merged, inserted, false)
    && Kept(r, resultInserted, true) == Kept(merged, inserted, true) + Kept(pending, chosen, true)
    && (forall k | 0 <= k < |pending| && chosen[k] :: StartsWith(pending[k], "> "))
    && (forall k | 0 <= k < |r| && resultInserted[k] :: StartsWith(r[k], "> "))
    && |r| <= |merged| + |pending|
  }

  /** How the chosen pending lines grow by one pending line. */
  lemma ChosenStep(pending: seq<string>, chosen: seq<bool>, rest: seq<bool>)
    requires pending != [] && |chosen| == |pending| && chosen[1..] == rest
    requires chosen[0] ==> StartsWith(pending[0], "> ")
    requires forall k | 0 <= k < |rest| && rest[k] :: StartsWith(pending[1..][k], "> ")
    ensures Kept(pending, chosen, true) == (if chosen[0] then [pending[0]] else []) + Kept(pending[1..], rest, true)
    ensures forall k | 0 <= k < |pending| && chosen[k] :: StartsWith(pending[k], "> ")
  {
    forall k | 0 <= k < |pending| && chosen[k] ensures StartsWith(pending[k], "> ") {
      if k > 0 {
        assert chosen[k] == rest[k - 1] && pending[k] == pending[1..][k - 1];
      }
    }
  }

  /** A pending line that is matched or dropped is not chosen. */
  lemma SkipStep(merged: seq<string>, inserted: seq<bool>, pending: seq<string>,
                 r: seq<string>, resultInserted: seq<bool>, rest: seq<bool>)
    requires pending != []
    requires MergeAccounts(merged, inserted, pending[1..], r, resultInserted, rest)
    ensures MergeAccounts(merged, inserted, pending, r, resultInserted, [false] + rest)
  {
    ChosenStep(pending, [false] + rest, rest);
  }

  /** A pending line inserted at the cursor is chosen, and goes last among the flagged lines. */
  lemma InsertStep(merged: seq<string>, inserted: seq<bool>, cursor: nat, pending: seq<string>,
                   r: seq<string>, resultInserted: seq<bool>, rest: seq<bool>)
    requires cursor <= |merged| && |inserted| == |merged| && pending != []
    requires StartsWith(pending[0], "> ")
    requires forall k | cursor <= k < |merged| :: !inserted[k]
    requires MergeAccounts(merged[..cursor] + [pending[0]] + merged[cursor..],
                           inserted[..cursor] + [true] + inserted[cursor..],
                           pending[1..], r, resultInserted, rest)
    ensures MergeAccounts(merged, inserted, pending, r, resultInserted, [true] + rest)
  {
    var line := pending[0];
    InsertKept(merged, inserted, cursor, line);
    ChosenStep(pending, [true] + rest, rest);
    var before := Kept(merged, inserted, true);
    assert before + [line] + Kept(pending[1..], rest, true)
           == before + ([line] + Kept(pending[1..], rest, true));
  }

  /** Merging never drops or reorders a line it starts from, and what it adds comes from the
      pending lines in their order (see `MergeAccounts`). */
  lemma {:induction false} MergeFromKeeps(merged: seq<string>, inserted: seq<bool>, cursor: nat,
                                          pending: seq<string>)
    returns (resultInserted: seq<bool>, chosen: seq<bool>)
    requires cursor <= |merged| && |inserted| == |merged|
    requires forall k | cursor <= k < |merged| :: !inserted[k]
    requires forall k | 0 <= k < |merged| && inserted[k] :: StartsWith(merged[k], "> ")
    ensures MergeAccounts(merged, inserted, pending, MergeFrom(merged, cursor, pending), resultInserted, chosen)
    decreases |pending|
  {
    if pending == [] {
      resultInserted, chosen := inserted, [];
    } else {
      var line := pending[0];
      var found := FindFrom(merged, cursor, line);
      var rest: seq<bool>;
      if found != -1 {
        resultInserted, rest := MergeFromKeeps(merged, inserted, found + 1, pending[1..]);
        SkipStep(merged, inserted, pending, MergeFrom(merged, found + 1, pending[1..]), resultInserted, rest);
        chosen := [false] + rest;
      } else if StartsWith(line, "> ") {
        var m2 := merged[..cursor] + [line] + merged[cursor..];
        var t2 := inserted[..cursor] + [true] + inserted[cursor..];
        InsertUntagged(merged, inserted, cursor, line);
        assert forall k | cursor + 1 <= k < |m2| :: t2[k] == inserted[k - 1];
        resultInserted, rest := MergeFromKeeps(m2, t2, cursor + 1, pending[1..]);
        InsertStep(merged, inserted, cursor, pending, MergeFrom(m2, cursor + 1, pending[1..]), resultInserted, rest);
        chosen := [true] + rest;
      } else {
        resultInserted, rest := MergeFromKeeps(merged, inserted, cursor, pending[1..]);
        SkipStep(merged, inserted, pending, MergeFrom(merged, cursor, pending[1..]), resultInserted, rest);
        chosen := [false] + rest;
      }
    }
  }

  /** The history is an in-order subsequence of the merge, and the lines added to it are an
      in-order subsequence of the pending `> ` lines: removing the inserted lines gives the
      history back, and the inserted lines are the `chosen` pending lines, in order. */
  lemma MergeKeepsHistory(historyLines: seq<string>, currentLines: seq<string>)
    returns (inserted: seq<bool>, chosen: seq<bool>)
    ensures var r := MergeFrom(historyLines, 0, currentLines);
            && |inserted| == |r| && |chosen| == |currentLines|
            && Kept(r, inserted, false) == historyLines
            && Kept(r, inserted, true) == Kept(currentLines, chosen, true)
            && (forall k | 0 <= k < |currentLines| && chosen[k] :: StartsWith(currentLines[k], "> "))
            && |r| <= |historyLines| + |currentLines|
  {
    var none := seq(|historyLines|, k => false);
    KeptAll(historyLines, none, false);
    inserted, chosen := MergeFromKeeps(historyLines, none, 0, currentLines);
  }

  // ---------------------------------------------------------------------------------------
  // Outgoing messages

  const ProjectPreambleRest := " Operate within this repository. You may also read/write your agent workspace files (IDENTITY.md, USER.md, HEARTBEAT.md, TOOLS.md, MEMORY.md). Use MEMORY.md or memory/*.md directly for durable memory; do not rely on memory_search."

  /** `buildProjectMessage`: the trimmed message, prefixed with the workspace path unless there
      is no workspace, its path is blank, or the message is a `/` command. The path is used
      untrimmed. */
  function BuildProjectMessage(project: Option<ProjectRuntime>, message: string): (r: string)
    ensures project.None? || IsBlank(project.value.repoPath) || StartsWith(Trim(message), "/") ==>
              r == Trim(message)
    ensures project.Some? && !IsBlank(project.value.repoPath) && !StartsWith(Trim(message), "/") ==>
              && StartsWith(r, "Workspace path: " + project.value.repoPath + ".")
              && EndsWith(r, "\n\n" + Trim(message))
  {
    var trimmed := Trim(message);
    if project.None? || IsBlank(project.value.repoPath) then trimmed
    else if StartsWith(trimmed, "/") then trimmed
    else
      var head := "Workspace path: " + project.value.repoPath + ".";
      var tail := "\n\n" + trimmed;
      ConcatEnds(head, ProjectPreambleRest, tail);
      head + ProjectPreambleRest + tail
  }

  // ---------------------------------------------------------------------------------------
  // Locating tiles

  datatype TileRef = TileRef(projectId: string, tileId: string)

  /** The first tile of `ts` satisfying `matches`, by index, or -1. */
  function IndexOfTile(ts: seq<AgentTile>, matches: AgentTile -> bool): (r: int)
    ensures -1 <= r < |ts|
    ensures r == -1 <==> forall j | 0 <= j < |ts| :: !matches(ts[j])
    ensures r >= 0 ==> matches(ts[r]) && forall j | 0 <= j < r :: !matches(ts[j])
  {
    if ts == [] then -1
    else if matches(ts[0]) then 0
    else
      var k := IndexOfTile(ts[1..], matches);
      assert forall j | 1 <= j < |ts| :: ts[j] == ts[1..][j - 1];
      if k == -1 then -1 else k + 1
  }

  /** The first workspace at or after index `from` holding a matching tile, or -1. */
  function FindTileProject(projects: seq<ProjectRuntime>, matches: AgentTile -> bool, from: nat): (r: int)
    requires from <= |projects|
    ensures r == -1 || from <= r < |projects|
    ensures r >= 0 ==> IndexOfTile(projects[r].tiles, matches) >= 0
    ensures forall i | from <= i < |projects| && (r == -1 || i < r) ::
              IndexOfTile(projects[i].tiles, matches) == -1
    decreases |projects| - from
  {
    if from == |projects| then -1
    else if IndexOfTile(projects[from].tiles, matches) >= 0 then from
    else FindTileProject(projects, matches, from + 1)
  }

  /** The first workspace, in order, holding a matching tile, with that workspace's first
      matching tile; none exactly when no tile anywhere matches. */
  function FindTile(projects: seq<ProjectRuntime>, matches: AgentTile -> bool): (r: Option<TileRef>)
    ensures r.None? <==> forall i, j | 0 <= i < |projects| && 0 <= j < |projects[i].tiles| ::
                           !matches(projects[i].tiles[j])
    ensures r.Some? ==> exists i | 0 <= i < |projects| ::
                          && (forall k | 0 <= k < i :: IndexOfTile(projects[k].tiles, matches) == -1)
                          && var j := IndexOfTile(projects[i].tiles, matches);
                             && 0 <= j
                             && matches(projects[i].tiles[j])
                             && r.value == TileRef(projects[i].id, projects[i].tiles[j].tile.id)
  {
    var i := FindTileProject(projects, matches, 0);
    if i == -1 then None
    else
      var j := IndexOfTile(projects[i].tiles, matches);
      Some(TileRef(projects[i].id, projects[i].tiles[j].tile.id))
  }

  /** `findTileBySessionKey`. */
  function FindTileBySessionKey(projects: seq<ProjectRuntime>, sessionKey: string): (r: Option<TileRef>)
    ensures r == FindTile(projects, (t: AgentTile) => t.tile.sessionKey == sessionKey)
    ensures r.None? <==> forall i, j | 0 <= i < |projects| && 0 <= j < |projects[i].tiles| ::
                           projects[i].tiles[j].tile.sessionKey != sessionKey
  {
    FindTile(projects, (t: AgentTile) => t.tile.sessionKey == sessionKey)
  }

  /** `findTileByRunId`. */
  function FindTileByRunId(projects: seq<ProjectRuntime>, runId: string): (r: Option<TileRef>)
    ensures r == FindTile(projects, (t: AgentTile) => t.runId == Some(runId))
    ensures r.None? <==> forall i, j | 0 <= i < |projects| && 0 <= j < |projects[i].tiles| ::
                           projects[i].tiles[j].runId != Some(runId)
  {
    FindTile(projects, (t: AgentTile) => t.runId == Some(runId))
  }

  // ---------------------------------------------------------------------------------------
  // Run lifecycle

  const NoAgentTileChange := AgentTilePatch(NoTileChange, None, None, None, None, None, None, None, None, None)

  /** A tile's own run that an `end` or `error` event names differently: the tile's `runId`
      is a non-empty string other than the event's. */
  predicate IsOtherRun(t: AgentTile, runId: string)
  {
    t.runId.Some? && t.runId.value != "" && t.runId.value != runId
  }

  /** The patch a lifecycle event of phase `phase` for run `runId` dispatches for tile `t`. */
  function LifecyclePatch(t: AgentTile, phase: string, runId: string): (r: Option<AgentTilePatch>)
    ensures phase == "start" ==>
              r == Some(NoAgentTileChange.(status := Some(Running), runId := Some(Some(runId))))
    ensures (phase == "end" || phase == "error") && IsOtherRun(t, runId) ==> r.None?
    ensures (phase == "end" || phase == "error") && !IsOtherRun(t, runId) ==>
              r == Some(NoAgentTileChange.(status := Some(if phase == "end" then Idle else Error),
                                           runId := Some(None), streamText := Some(None)))
    ensures phase != "start" && phase != "end" && phase != "error" ==> r.None?
  {
    if phase == "start" then
      Some(NoAgentTileChange.(status := Some(Running), runId := Some(Some(runId))))
    else if phase == "end" then
      if IsOtherRun(t, runId) then None
      else Some(NoAgentTileChange.(status := Some(Idle), runId := Some(None), streamText := Some(None)))
    else if phase == "error" then
      if IsOtherRun(t, runId) then None
      else Some(NoAgentTileChange.(status := Some(Error), runId := Some(None), streamText := Some(None)))
    else None
  }

  /** The tile after a lifecycle event: running with the event's run id after `start`; idle
      or errored with no run and no stream after an `end` or `error` of its own run; unchanged
      otherwise. Either way a tile is running exactly when it holds a run id afterwards,
      whenever the event was applied. */
  lemma LifecycleTransition(t: AgentTile, phase: string, runId: string, limits: TileLimits)
    requires runId != ""
    ensures var p := LifecyclePatch(t, phase, runId);
            var after := if p.Some? then PatchAgentTile(t, p.value, limits) else t;
            && (phase == "start" ==> after == t.(status := Running, runId := Some(runId)))
            && ((phase == "end" || phase == "error") && !IsOtherRun(t, runId) ==>
                  after == t.(status := if phase == "end" then Idle else Error,
                              runId := None, streamText := None))
            && (p.None? ==> after == t)
            && (p.Some? ==> (after.status == Running <==> after.runId.Some?))
  {
    TilePatchIdempotent(t.tile, NoTileChange);
  }

  /** An `agent` event: `runId` is "" when missing or empty; `sessionKey` is `None` when
      absent; `phase` is `data.phase` when it is a string and "" otherwise. */
  datatype AgentEvent = AgentEvent(runId: string, sessionKey: Option<string>, stream: Option<string>,
                                   phase: string)

  /** The first tile of `ts` with id `tileId`. */
  function FindTileById(ts: seq<AgentTile>, tileId: string): (r: Option<AgentTile>)
    ensures r.Some? ==> r.value in ts && r.value.tile.id == tileId
    ensures r.None? <==> forall j | 0 <= j < |ts| :: ts[j].tile.id != tileId
    ensures r.Some? ==> exists j | 0 <= j < |ts| :: ts[j] == r.value && forall k | 0 <= k < j :: ts[k].tile.id != tileId
  {
    var j := IndexOfTile(ts, (t: AgentTile) => t.tile.id == tileId);
    if j == -1 then None else Some(ts[j])
  }

  /** The tile an event is about: the tile whose session key is the event's (when the event
      carries a non-empty one and such a tile exists), else the tile running the event's run. */
  function MatchEventTile(projects: seq<ProjectRuntime>, runId: string, sessionKey: Option<string>)
    : (r: Option<TileRef>)
    ensures sessionKey.Some? && sessionKey.value != "" && FindTileBySessionKey(projects, sessionKey.value).Some? ==>
              r == FindTileBySessionKey(projects, sessionKey.value)
    ensures !(sessionKey.Some? && sessionKey.value != "" && FindTileBySessionKey(projects, sessionKey.value).Some?) ==>
              r == FindTileByRunId(projects, runId)
  {
    var direct := if sessionKey.Some? && sessionKey.value != ""
                  then FindTileBySessionKey(projects, sessionKey.value) else None;
    if direct.Some? then direct else FindTileByRunId(projects, runId)
  }

  /** The tile a reference names: the first tile with its tile id in the first workspace with
      its workspace id. */
  function TargetTile(projects: seq<ProjectRuntime>, ref: TileRef): (r: Option<AgentTile>)
    ensures r.Some? ==> HasId(projects, ref.projectId) && r.value.tile.id == ref.tileId
    ensures r.None? <==> !HasId(projects, ref.projectId)
                         || forall t | t in FindProject(projects, ref.projectId).value.tiles :: t.tile.id != ref.tileId
    ensures HasId(projects, ref.projectId) ==>
              r == FindTileById(FindProject(projects, ref.projectId).value.tiles, ref.tileId)
  {
    var project := FindProject(projects, ref.projectId);
    if project.None? then None else FindTileById(project.value.tiles, ref.tileId)
  }

  /** The `agent` event handler: the `updateTile` it dispatches, if any. It dispatches one
      exactly when the event has a run id, comes from the `lifecycle` stream, names a tile,
      and its phase gives that tile a patch; the patch is the lifecycle patch for that tile. */
  function HandleAgentEvent(projects: seq<ProjectRuntime>, ev: AgentEvent): (r: Option<Action>)
    ensures var found := MatchEventTile(projects, ev.runId, ev.sessionKey);
            r.Some? <==> && ev.runId != "" && ev.stream == Some("lifecycle") && found.Some?
                         && TargetTile(projects, found.value).Some?
                         && LifecyclePatch(TargetTile(projects, found.value).value, ev.phase, ev.runId).Some?
    ensures r.Some? ==>
              && r.value.UpdateTile?
              && var ref := TileRef(r.value.projectId, r.value.tileId);
                 && MatchEventTile(projects, ev.runId, ev.sessionKey) == Some(ref)
                 && HasId(projects, ref.projectId)
                 && TargetTile(projects, ref).Some?
                 && LifecyclePatch(TargetTile(projects, ref).value, ev.phase, ev.runId) == Some(r.value.patch)
  {
    if ev.runId == "" then None
    else
      var found := MatchEventTile(projects, ev.runId, ev.sessionKey);
      if found.None? || ev.stream != Some("lifecycle") then None
      else
        var tile := TargetTile(projects, found.value);
        if tile.None? then None
        else
          var patch := LifecyclePatch(tile.value, ev.phase, ev.runId);
          if patch.None? then None
          else Some(UpdateTile(found.value.projectId, found.value.tileId, patch.value))
  }
}
