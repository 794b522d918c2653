/**
 Keeping large definitions folded.  A predicate written `forall u :: Show(Pins, u) ==> P` gives a
 proof P only where the proof says `assert Show(Pins, 0)`.  A part folds one definition, or a few about one thing.
 */
module Folding {
  datatype Part =
    // the log over the buffer cache
    | Distinctness | Script | CrashPoints | MruLinks | Buffers | Pins | Suffixes | Headers | CommitState | Midst
    // files
    | Codec | Inodes | Uses | Holes | OtherFiles | Overlays | Loggings | Changes | Supply
    // writes to files
    | Modesty | Written | ChunkBytes | Slices | Usability | Stores | Versions | Turns | Images | Cargo | Group
    // page tables
    | Owners | Frames | Lookups | Regions | Spending | SlotSets | Tallies
    // the heap, the shell and pipes
    | Tiled | History | Searches | Lexing | Parsing | Traffic

  ghost predicate Show(part: Part, u: int) {
    true
  }
}
