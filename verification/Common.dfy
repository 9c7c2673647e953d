/** What the modules share. */
module Common {

  /** Blocks a file system operation may log; the log and the buffer cache hold three times as many. */
  const MAXOPBLOCKS := 42

  datatype Option<T> = None | Some(value: T)

  type Byte = x: int | 0 <= x < 256

  predicate NoDup<T(==)>(s: seq<T>) {
    forall i, j | 0 <= i < j < |s| :: s[i] != s[j]
  }

  lemma Assoc<T>(a: seq<T>, b: seq<T>, c: seq<T>)
    ensures (a + b) + c == a + (b + c)
  {
  }
}
