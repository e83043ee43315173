/** Byte strings: the program's std::string and std::string_view hold bytes, not characters. */
module Bytes {

  type Byte = b: int | 0 <= b < 256

  type Text = seq<Byte>

  datatype Option<+T> = None | Some(value: T)

  function Min(a: int, b: int): (r: int)
    ensures r <= a && r <= b && (r == a || r == b)
  {
    if a <= b then a else b
  }

  function Max(a: int, b: int): (r: int)
    ensures r >= a && r >= b && (r == a || r == b)
  {
    if a >= b then a else b
  }

  /** What std::isspace accepts in the C locale. */
  predicate IsBlank(b: Byte) { b == 0x20 || 0x09 <= b <= 0x0D }

  /** Somewhere in the list x stands before y. */
  ghost predicate Precedes<T(!new)>(s: seq<T>, x: T, y: T) {
    exists i, j :: 0 <= i < j < |s| && s[i] == x && s[j] == y
  }

  lemma PrecedesConcat<T(!new)>(a: seq<T>, b: seq<T>, x: T, y: T)
    ensures Precedes(a, x, y) ==> Precedes(a + b, x, y)
    ensures Precedes(b, x, y) ==> Precedes(a + b, x, y)
    ensures x in a && y in b ==> Precedes(a + b, x, y)
  {
    var s := a + b;
    if Precedes(a, x, y) {
      var i, j :| 0 <= i < j < |a| && a[i] == x && a[j] == y;
      assert s[i] == x && s[j] == y;
    }
    if Precedes(b, x, y) {
      var i, j :| 0 <= i < j < |b| && b[i] == x && b[j] == y;
      assert s[|a| + i] == x && s[|a| + j] == y;
    }
    if x in a && y in b {
      var i :| 0 <= i < |a| && a[i] == x;
      var j :| 0 <= j < |b| && b[j] == y;
      assert s[i] == x && s[|a| + j] == y;
    }
  }

  lemma PrecedesLast<T(!new)>(before: seq<T>, last: T, x: T, y: T)
    requires Precedes(before + [last], x, y)
    ensures Precedes(before, x, y) || (x in before && y == last)
  {
    var s := before + [last];
    var i, j :| 0 <= i < j < |s| && s[i] == x && s[j] == y;
    if j < |before| {
      assert before[i] == x && before[j] == y;
    } else {
      assert before[i] == x;
    }
  }
}
