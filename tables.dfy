/** A table written row by row: a header, then one row per item, in order. The CSV
    file and the Word table are both written this way. */
module Tables {

  /** The rows written once the items of s are processed: the header, then
      row(s[0]), ..., row(s[|s| - 1]). */
  function Written<E, T>(header: T, row: E -> T, s: seq<E>): seq<T>
    decreases |s|
  {
    if s == [] then [header] else Written(header, row, s[..|s| - 1]) + [row(s[|s| - 1])]
  }

  /** Writing one more item appends its row. */
  lemma WrittenStep<E, T>(header: T, row: E -> T, s: seq<E>, i: nat)
    requires i < |s|
    ensures Written(header, row, s[..i + 1]) == Written(header, row, s[..i]) + [row(s[i])]
  {
    assert s[..i + 1][..i] == s[..i];
  }

  /** One row per item after the header. */
  lemma {:induction false} WrittenLength<E, T>(header: T, row: E -> T, s: seq<E>)
    ensures |Written(header, row, s)| == |s| + 1
    ensures Written(header, row, s)[0] == header
    decreases |s|
  {
    if s != [] {
      WrittenLength(header, row, s[..|s| - 1]);
    }
  }

  /** Row i + 1 is the row of item i. */
  lemma {:induction false} WrittenAt<E, T>(header: T, row: E -> T, s: seq<E>, i: nat)
    requires i < |s|
    ensures |Written(header, row, s)| == |s| + 1
    ensures Written(header, row, s)[i + 1] == row(s[i])
    decreases |s|
  {
    var n := |s| - 1;
    WrittenLength(header, row, s[..n]);
    if i < n {
      WrittenAt(header, row, s[..n], i);
      assert s[..n][i] == s[i];
    }
  }
}
