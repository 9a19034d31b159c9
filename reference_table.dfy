/** The reference table: an ordered mapping from note name to its target
    frequencies.  Python keeps it in an insertion-ordered dict; the order is
    observable (the note matcher breaks ties by it), so it is a sequence of
    entries here, with distinct names. */
module ReferenceTable {

  datatype NoteEntry = NoteEntry(name: string, targets: seq<int>)

  /** The dict invariant: no name occurs twice. */
  predicate DistinctNames(table: seq<NoteEntry>) {
    forall i, j :: 0 <= i < j < |table| ==> table[i].name != table[j].name
  }

  /** The names of a table, in order. */
  function Names(table: seq<NoteEntry>): (r: seq<string>)
    ensures |r| == |table|
  {
    seq(|table|, i requires 0 <= i < |table| => table[i].name)
  }

  /** Two tables list the same names in the same order. */
  predicate SameNames(a: seq<NoteEntry>, b: seq<NoteEntry>) {
    Names(a) == Names(b)
  }
}
