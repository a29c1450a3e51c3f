/** What several modules share. */
module Basics {

  datatype Option<+T> = None | Some(value: T)

  type Byte = x: int | 0 <= x < 256

  /** Unsigned 32-bit arithmetic is modulo this. */
  const TWO32: nat := 0x1_0000_0000

  /** The low 32 bits as a C int. */
  function ToInt(x: int): int {
    var r := x % TWO32;
    if r < 0x8000_0000 then r else r - TWO32
  }

  /** The blocks a file system operation reserves in the log (param.h). */
  const MAXOPBLOCKS: nat := 10

  ghost predicate Distinct(s: seq<nat>) {
    forall i, j :: 0 <= i < j < |s| ==> s[i] != s[j]
  }

  function ToSet(s: seq<nat>): set<nat> {
    set x | x in s
  }

  lemma {:induction false} SubsetSize<T>(s: set<T>, t: set<T>)
    requires s <= t
    ensures |s| <= |t|
  {
    if s != {} {
      var x :| x in s;
      SubsetSize(s - {x}, t - {x});
    }
  }
}
