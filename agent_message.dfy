/** The instruction sent to an agent for a user message: the message itself, prefixed with
    where the agent works and what it may touch, unless it is a `/` command. */
module AgentMessage {
  import opened Strings

  const RepoNoteHead := " This is a git worktree of "

  const InstructionRest := " Operate within this repository. You may also read/write your agent workspace files (AGENTS.md, SOUL.md, IDENTITY.md, USER.md, HEARTBEAT.md, TOOLS.md, MEMORY.md). Use MEMORY.md or memory/*.md directly for durable memory; do not rely on memory_search."

  /** The sentence naming the repository a worktree belongs to; empty when the repository
      path is blank. */
  function RepoNote(repoPath: string): (r: string)
    ensures r == "" <==> IsBlank(repoPath)
    ensures !IsBlank(repoPath) ==> StartsWith(r, RepoNoteHead + Trim(repoPath)) && EndsWith(r, ".")
  {
    var repo := Trim(repoPath);
    if repo == "" then ""
    else
      ConcatEnds(RepoNoteHead + repo, "", ".");
      assert RepoNoteHead + repo + "" == RepoNoteHead + repo;
      RepoNoteHead + repo + "."
  }

  /** `buildAgentInstruction`. */
  function BuildAgentInstruction(worktreePath: string, repoPath: string, message: string): (r: string)
    ensures r == "" <==> IsBlank(message)
    ensures IsBlank(message) || StartsWith(Trim(message), "/") || IsBlank(worktreePath) ==>
              r == Trim(message)
    ensures !IsBlank(message) && !StartsWith(Trim(message), "/") && !IsBlank(worktreePath) ==>
              && StartsWith(r, "Workspace path: " + Trim(worktreePath) + "." + RepoNote(repoPath))
              && EndsWith(r, "\n\n" + Trim(message))
  {
    var trimmed := Trim(message);
    if trimmed == "" then trimmed
    else if StartsWith(trimmed, "/") then trimmed
    else
      var worktree := Trim(worktreePath);
      if worktree == "" then trimmed
      else
        var head := "Workspace path: " + worktree + "." + RepoNote(repoPath);
        var tail := "\n\n" + trimmed;
        ConcatEnds(head, InstructionRest, tail);
        head + InstructionRest + tail
  }

  /** A caller that trims the message first gets the same instruction. */
  lemma PretrimmedMessage(worktreePath: string, repoPath: string, message: string)
    ensures BuildAgentInstruction(worktreePath, repoPath, Trim(message))
            == BuildAgentInstruction(worktreePath, repoPath, message)
  {
    TrimIdempotent(message);
  }
}
