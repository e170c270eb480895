/** The terminal menu: its cursors, its forms and its modes. Keys are handled one at a time and the
    command that a key starts is carried to its end before the next key. */
module Menu {
  import opened Wrappers
  import opened Text
  import Decimal

  // ---------- arithmetic of lists ----------

  /** The page of the list that is drawn. Go's division truncates, but the cursor is never negative. */
  function VisibleRange(cursor: nat, total: int, height: int): (r: (int, int)) {
    if total <= 0 then (0, 0)
    else
      var h := if height < 1 then 1 else height;
      var page := (cursor / h) * h;
      var start := if page + h > total then (if total - h < 0 then 0 else total - h) else page;
      (start, if start + h > total then total else start + h)
  }

  /** The window is within the list, as large as fits, and always shows the selected row. */
  lemma WindowShowsSelection(cursor: nat, total: int, height: int)
    requires cursor < total
    ensures var (start, end) := VisibleRange(cursor, total, height);
      0 <= start <= cursor < end <= total
        && end - start == (if height < 1 then 1 else if height < total then height else total)
  {
    var h := if height < 1 then 1 else height;
    PageStart(cursor, h);
  }

  lemma PageStart(cursor: nat, h: int)
    requires h >= 1
    ensures (cursor / h) * h <= cursor < (cursor / h) * h + h
  {
    assert cursor == (cursor / h) * h + cursor % h;
  }

  /** The rows that a page key moves by. */
  function PageSize(height: int): (n: int)
    ensures n >= 1
  {
    var h := if height <= 0 then 24 else height;
    var shown := if h > 1 then h - 1 else h;
    if shown < 10 then 1 else shown - 8
  }

  function IndexOf(options: seq<string>, value: string): (i: nat)
    ensures options != [] ==> i < |options|
    ensures value in options ==> options[i] == value && value !in options[..i]
    ensures value !in options ==> i == 0
  {
    if value !in options then 0 else if options[0] == value then 0 else 1 + IndexOf(options[1..], value)
  }

  /** `cycleOption`; a value that is not among the options counts as the first. */
  function Cycled(options: seq<string>, value: string, delta: int): (r: string)
    requires delta == 1 || delta == -1
    ensures options == [] ==> r == value
    ensures options != [] ==> r in options
  {
    if options == [] then value else options[(IndexOf(options, value) + delta + |options|) % |options|]
  }

  predicate Distinct(options: seq<string>) { forall i, j :: 0 <= i < j < |options| ==> options[i] != options[j] }

  lemma IndexOfDistinct(options: seq<string>, i: nat)
    requires Distinct(options) && i < |options|
    ensures IndexOf(options, options[i]) == i
  {
    var j := IndexOf(options, options[i]);
    assert options[j] == options[i];
  }

  /** Adding the length before taking the remainder wraps around at both ends. */
  lemma Wraps(i: nat, n: nat)
    requires i < n
    ensures (i + 1 + n) % n == if i + 1 == n then 0 else i + 1
    ensures (i - 1 + n) % n == if i == 0 then n - 1 else i - 1
  {
    SmallRemainder(1, if i + 1 == n then 0 else i + 1, n);
    SmallRemainder(2, 0, n);
    SmallRemainder(0, n - 1, n);
    if i > 0 { SmallRemainder(1, i - 1, n); }
  }

  lemma SmallRemainder(q: nat, r: nat, n: nat)
    requires r < n
    ensures (q * n + r) % n == r
  {
    var m := q * n + r;
    var d := m / n - q;
    assert d * n == r - m % n;
    AtLeastOnce(d, n);
    AtLeastOnce(-d, n);
  }

  lemma AtLeastOnce(d: int, n: nat)
    ensures d >= 1 ==> d * n >= n
    ensures -d * n == -(d * n)
  {
  }

  lemma CycledAt(options: seq<string>, i: nat)
    requires Distinct(options) && i < |options|
    ensures Cycled(options, options[i], 1) == options[if i + 1 == |options| then 0 else i + 1]
    ensures Cycled(options, options[i], -1) == options[if i == 0 then |options| - 1 else i - 1]
  {
    IndexOfDistinct(options, i);
    Wraps(i, |options|);
    hide IndexOf, Distinct;
  }

  /** Moving left undoes moving right, and the other way round. */
  lemma CyclingBack(options: seq<string>, value: string, delta: int)
    requires Distinct(options) && value in options && (delta == 1 || delta == -1)
    ensures Cycled(options, Cycled(options, value, delta), -delta) == value
  {
    var n, i := |options|, IndexOf(options, value);
    hide IndexOf, Distinct, Cycled;
    CycledAt(options, i);
    CycledAt(options, if i + 1 == n then 0 else i + 1);
    CycledAt(options, if i == 0 then n - 1 else i - 1);
  }

  function Repeat(options: seq<string>, value: string, times: nat): (r: string) {
    if times == 0 then value else Cycled(options, Repeat(options, value, times - 1), 1)
  }

  /** Moving right goes through all options in order and then starts again. */
  lemma {:induction false} CyclingReaches(options: seq<string>, i: nat)
    requires Distinct(options) && i <= |options| && options != []
    ensures Repeat(options, options[0], i) == if i == |options| then options[0] else options[i]
  {
    hide Distinct, Cycled;
    if i == 0 {
    } else {
      CyclingReaches(options, i - 1);
      CycledAt(options, i - 1);
    }
  }
}
