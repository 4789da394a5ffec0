/** Running a block of a note, from the note's text on. */
module NoteRuns {
  import opened Text
  import opened Json
  import opened Blocks
  import opened BlockParser
  import opened BlockScan
  import opened Runner
  import opened RunnerTheorems

  /** MAIN: whatever the note says, a run over its parsed blocks meets no cycle, its depth
      limit takes 52 blocks, and on success the executor was called once for each block
      the target reaches, dependencies first and the target last. */
  lemma NoteRunHasNoCycle(json: string -> Option<Value>, markdown: string, host: Host, target: string)
    ensures var blocks := BlocksOf(json, markdown);
            Ordered(blocks) &&
            var (st, r) := Run(blocks, host, target);
            match r
            case Ok(v) =>
              && st.inProgress == {} && st.executed.Keys == Closure(blocks, target) && st.executed[target] == v
              && Topological(blocks, st.trace) && st.trace != [] && st.trace[|st.trace| - 1] == target
              && (forall x :: x in st.trace <==> x in Closure(blocks, target))
            case Err(e) =>
              && !e.Root().CyclicDependency?
              && (e.Root().DepthExceeded? ==> |blocks| >= 52)
  {
    BlocksAreOrdered(json, markdown);
    RunOrder(BlocksOf(json, markdown), host, target);
  }
}
