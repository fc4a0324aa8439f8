/** ftpparse.c: one line of an FTP LIST answer.  A line is exactly the len bytes the
    caller hands over, so an index that leaves it does not verify. */
module FtpParses {
  import opened FtpDates
  import opened Helpers

  const MONTHS: seq<string> := ["jan", "feb", "mar", "apr", "may", "jun", "jul", "aug", "sep", "oct", "nov", "dec"]

  function Digit(c: char): int { c as int - '0' as int }

  /** getlong: anything is taken for a digit. */
  function GetLong(s: string): int {
    if s == "" then 0 else GetLong(s[..|s| - 1]) * 10 + Digit(s[|s| - 1])
  }

  lemma {:induction false} GetLongOfDecimal(n: nat)
    ensures GetLong(Decimal(n)) == n
  {
    var s := Decimal(n);
    if n >= 10 {
      GetLongOfDecimal(n / 10);
      assert s[..|s| - 1] == Decimal(n / 10);
    } else {
      assert s[..0] == "";
    }
  }

  /** check: either case, letter by letter. */
  predicate Check(w: string, month: string)
    requires |w| == |month| == 3
  {
    forall i :: 0 <= i < 3 ==> w[i] == month[i] || w[i] as int == month[i] as int - 32
  }

  function FirstMonth(w: string, from: nat): int
    requires |w| == 3 && from <= 12
    decreases 12 - from
  {
    if from == 12 then -1 else if Check(w, MONTHS[from]) then from else FirstMonth(w, from + 1)
  }

  function GetMonth(w: string): int {
    if |w| == 3 then FirstMonth(w, 0) else -1
  }

  lemma MonthsDiffer(w: string, i: nat, k: nat)
    requires |w| == 3 && i < k < 12 && Check(w, MONTHS[k])
    ensures !Check(w, MONTHS[i])
  {
    assert w[0] == MONTHS[k][0] || w[0] as int == MONTHS[k][0] as int - 32;
    assert w[1] == MONTHS[k][1] || w[1] as int == MONTHS[k][1] as int - 32;
    assert w[2] == MONTHS[k][2] || w[2] as int == MONTHS[k][2] as int - 32;
  }

  lemma {:induction false} GetMonthFinds(w: string, k: nat, from: nat)
    requires |w| == 3 && from <= k < 12 && Check(w, MONTHS[k])
    ensures FirstMonth(w, from) == k
    decreases 12 - from
  {
    if from < k {
      MonthsDiffer(w, from, k);
      GetMonthFinds(w, k, from + 1);
    }
  }

  lemma {:induction false} NotAMonth(w: string, from: nat)
    requires |w| == 3 && from <= 12 && '0' <= w[0] <= '9'
    ensures FirstMonth(w, from) == -1
    decreases 12 - from
  {
    if from < 12 {
      NotAMonth(w, from + 1);
    }
  }

  lemma Capitals(k: nat, capital: string, large: string)
    requires k < 12
    requires capital == ["Jan", "Feb", "Mar", "Apr", "May", "Jun", "Jul", "Aug", "Sep", "Oct", "Nov", "Dec"][k]
    requires large == ["JAN", "FEB", "MAR", "APR", "MAY", "JUN", "JUL", "AUG", "SEP", "OCT", "NOV", "DEC"][k]
    ensures |capital| == |large| == 3 && Check(capital, MONTHS[k]) && Check(large, MONTHS[k])
  {
  }

  /** The names the servers use. */
  lemma MonthNames(k: nat, small: string, capital: string, large: string)
    requires k < 12 && small == ["jan", "feb", "mar", "apr", "may", "jun", "jul", "aug", "sep", "oct", "nov", "dec"][k]
    requires capital == ["Jan", "Feb", "Mar", "Apr", "May", "Jun", "Jul", "Aug", "Sep", "Oct", "Nov", "Dec"][k]
    requires large == ["JAN", "FEB", "MAR", "APR", "MAY", "JUN", "JUL", "AUG", "SEP", "OCT", "NOV", "DEC"][k]
    ensures GetMonth(small) == GetMonth(capital) == GetMonth(large) == k
  {
    Capitals(k, capital, large);
    GetMonthFinds(small, k, 0);
    GetMonthFinds(capital, k, 0);
    GetMonthFinds(large, k, 0);
  }

  // UNIX-style listings: columns separated by spaces.

  /** What a line says about the modification time: nothing, a date and a time of day
      without a year, a date, or all of it. */
  datatype Stamp = Never
    | Minute(month: int, mday: int, hour: int, minute: int)
    | Day(year: int, month: int, mday: int)
    | Moment(year: int, month: int, mday: int, hour: int, minute: int)

  /** The state variable, what has been read, and where the name starts in state 8; state 0
      stands for giving up. */
  datatype Cols = Cols(state: nat, size: int, month: int, mday: int, stamp: Stamp, name: nat)

  const START := Cols(1, 0, 0, 0, Never, 0)

  function TakeTime(c: Cols, w: string, after: nat): Cols {
    if |w| == 4 && w[1] == ':' then
      c.(state := 8, name := after, stamp := Minute(c.month, c.mday, GetLong(w[..1]), GetLong(w[2..4])))
    else if |w| == 5 && w[2] == ':' then
      c.(state := 8, name := after, stamp := Minute(c.month, c.mday, GetLong(w[..2]), GetLong(w[3..5])))
    else if |w| >= 4 then
      c.(state := 8, name := after, stamp := Day(GetLong(w), c.month, c.mday))
    else c.(state := 0)
  }

  /** The word w ends; `after` is the index past the space that ends it. */
  function Take(c: Cols, w: string, after: nat): Cols {
    match c.state
    case 1 => c.(state := 2)
    case 2 => if |w| == 6 && w[0] == 'f' then c.(state := 4) else c.(state := 3)
    case 3 => c.(state := 4)
    case 4 => c.(state := 5, size := GetLong(w))
    case 5 => if GetMonth(w) >= 0 then c.(state := 6, month := GetMonth(w)) else c.(size := GetLong(w))
    case 6 => c.(state := 7, mday := GetLong(w))
    case 7 => TakeTime(c, w, after)
    case _ => c
  }

  function SkipSpaces(buf: string, i: nat): (k: nat)
    requires i <= |buf|
    ensures i <= k <= |buf|
    ensures forall x :: i <= x < k ==> buf[x] == ' '
    ensures k < |buf| ==> buf[k] != ' '
    decreases |buf| - i
  {
    if i < |buf| && buf[i] == ' ' then SkipSpaces(buf, i + 1) else i
  }

  /** The word at hand starts at i; a look-ahead i past j has only spaces before it. */
  ghost predicate Between(buf: string, i: nat, j: nat) {
    1 <= j && i <= |buf| && forall k :: j - 1 <= k < i ==> buf[k] == ' '
  }

  /** The column loop from index j on. */
  ghost function Walk(buf: string, i: nat, j: nat, c: Cols): Cols
    requires Between(buf, i, j)
    decreases |buf| - j
  {
    if j >= |buf| || c.state == 0 then c
    else if buf[j] == ' ' && buf[j - 1] != ' ' then
      Walk(buf, SkipSpaces(buf, j + 1), j + 1, Take(c, buf[i..j], j + 1))
    else Walk(buf, i, j + 1, c)
  }

  lemma {:induction false} WalkWord(buf: string, i: nat, j: nat, e: nat, c: Cols)
    requires Between(buf, i, j) && j <= e < |buf| && i < e && c.state != 0
    requires buf[e] == ' ' && forall k :: i <= k < e ==> buf[k] != ' '
    ensures Walk(buf, i, j, c) == Walk(buf, SkipSpaces(buf, e + 1), e + 1, Take(c, buf[i..e], e + 1))
    decreases e - j
  {
    if j < e {
      WalkWord(buf, i, j + 1, e, c);
    }
  }

  lemma {:induction false} WalkDone(buf: string, i: nat, j: nat, c: Cols)
    requires Between(buf, i, j) && c.state == 8
    ensures Walk(buf, i, j, c) == c
    decreases |buf| - j
  {
    if j < |buf| {
      if buf[j] == ' ' && buf[j - 1] != ' ' {
        WalkDone(buf, SkipSpaces(buf, j + 1), j + 1, c);
      } else {
        WalkDone(buf, i, j + 1, c);
      }
    }
  }

  lemma {:induction false} WalkNames(buf: string, i: nat, j: nat, c: Cols)
    requires Between(buf, i, j) && c.name <= |buf|
    ensures Walk(buf, i, j, c).name <= |buf|
    decreases |buf| - j
  {
    if j < |buf| && c.state != 0 {
      if buf[j] == ' ' && buf[j - 1] != ' ' {
        WalkNames(buf, SkipSpaces(buf, j + 1), j + 1, Take(c, buf[i..j], j + 1));
      } else {
        WalkNames(buf, i, j + 1, c);
      }
    }
  }

  /** A column as it is printed: a word and the spaces after it. */
  datatype Cell = Cell(word: string, pad: nat) {
    ghost predicate Ok() {
      word != "" && pad > 0 && forall i :: 0 <= i < |word| ==> word[i] != ' '
    }
  }

  function Width(cells: seq<Cell>): nat {
    if cells == [] then 0 else |cells[0].word| + cells[0].pad + Width(cells[1..])
  }

  /** The cells stand in buf from i on. */
  ghost predicate Shows(buf: string, i: nat, cells: seq<Cell>)
    decreases |cells|
  {
    cells != [] ==>
      var e, n := i + |cells[0].word|, i + |cells[0].word| + cells[0].pad;
      && cells[0].Ok() && n <= |buf|
      && buf[i..e] == cells[0].word
      && (forall k :: e <= k < n ==> buf[k] == ' ')
      && Shows(buf, n, cells[1..])
  }

  ghost function TakeCells(c: Cols, cells: seq<Cell>, i: nat): Cols
    decreases |cells|
  {
    if cells == [] then c
    else TakeCells(Take(c, cells[0].word, i + |cells[0].word| + 1), cells[1..], i + |cells[0].word| + cells[0].pad)
  }

  /** No column before the last one ends the columns. */
  ghost predicate Steady(c: Cols, cells: seq<Cell>, i: nat)
    decreases |cells|
  {
    c.state != 0 && (cells != [] ==>
      Steady(Take(c, cells[0].word, i + |cells[0].word| + 1), cells[1..], i + |cells[0].word| + cells[0].pad))
  }

  /** One column. */
  lemma WalkCell(buf: string, i: nat, j: nat, c: Cols, x: Cell)
    requires Between(buf, i, j) && j <= i + 1 && Shows(buf, i, [x]) && c.state != 0
    ensures var e, n := i + |x.word|, i + |x.word| + x.pad;
      && e < n <= |buf| && Between(buf, SkipSpaces(buf, e + 1), e + 1)
      && Walk(buf, i, j, c) == Walk(buf, SkipSpaces(buf, e + 1), e + 1, Take(c, x.word, e + 1))
      && (n < |buf| && buf[n] != ' ' ==> SkipSpaces(buf, e + 1) == n)
  {
    var e := i + |x.word|;
    assert [x][0] == x;
    assert forall k :: i <= k < e ==> buf[k] == x.word[k - i];
    WalkWord(buf, i, j, e, c);
  }

  /** Shows, and the columns read up to `end`; a mention of Unfold unfolds them. */
  ghost predicate Standing(buf: string, i: nat, cells: seq<Cell>) {
    forall z {:trigger Unfold(z)} :: Unfold(z) ==> Shows(buf, i, cells)
  }

  ghost predicate Reaches(c: Cols, cells: seq<Cell>, i: nat, end: Cols) {
    forall z {:trigger Unfold(z)} :: Unfold(z) ==>
      Steady(c, cells, i) && TakeCells(c, cells, i) == end && end.state == 8
  }

  lemma ShowsStart(buf: string, n: nat, cells: seq<Cell>)
    requires cells != [] && Shows(buf, n, cells)
    ensures n < |buf| && buf[n] != ' '
  {
    var w := cells[0].word;
    assert buf[n..n + |w|][0] == w[0];
  }

  lemma StandingFirst(buf: string, i: nat, cells: seq<Cell>)
    requires cells != [] && Standing(buf, i, cells)
    ensures var n := i + |cells[0].word| + cells[0].pad;
      && Shows(buf, i, [cells[0]]) && Standing(buf, n, cells[1..])
      && (cells[1..] != [] ==> n < |buf| && buf[n] != ' ')
  {
    assert Unfold(0);
    var n := i + |cells[0].word| + cells[0].pad;
    assert Shows(buf, n, []);
    if cells[1..] != [] {
      ShowsStart(buf, n, cells[1..]);
    }
  }

  lemma ReachesFirst(c: Cols, cells: seq<Cell>, i: nat, end: Cols)
    requires Reaches(c, cells, i, end)
    ensures c.state != 0 && (cells == [] ==> c == end && end.state == 8)
    ensures cells != [] ==>
      Reaches(Take(c, cells[0].word, i + |cells[0].word| + 1), cells[1..], i + |cells[0].word| + cells[0].pad, end)
  {
    assert Unfold(0);
  }

  lemma WalkLast(buf: string, i: nat, j: nat, c: Cols, x: Cell, end: Cols)
    requires Between(buf, i, j) && j <= i + 1 && Standing(buf, i, [x]) && Reaches(c, [x], i, end)
    ensures Walk(buf, i, j, c) == end
  {
    var e, c' := i + |x.word|, Take(c, x.word, i + |x.word| + 1);
    ReachesFirst(c, [x], i, end);
    StandingFirst(buf, i, [x]);
    WalkCell(buf, i, j, c, x);
    ReachesFirst(c', [], e + x.pad, end);
    WalkDone(buf, SkipSpaces(buf, e + 1), e + 1, c');
  }

  lemma {:induction false} WalkCells(buf: string, i: nat, j: nat, c: Cols, cells: seq<Cell>, end: Cols)
    requires Between(buf, i, j) && j <= i + 1 && Standing(buf, i, cells) && Reaches(c, cells, i, end)
    ensures Walk(buf, i, j, c) == end
    decreases |cells|
  {
    if cells == [] {
      ReachesFirst(c, cells, i, end);
      WalkDone(buf, i, j, c);
    } else if |cells| == 1 {
      assert cells == [cells[0]];
      WalkLast(buf, i, j, c, cells[0], end);
    } else {
      var x := cells[0];
      var e, n := i + |x.word|, i + |x.word| + x.pad;
      ReachesFirst(c, cells, i, end);
      StandingFirst(buf, i, cells);
      WalkCell(buf, i, j, c, x);
      WalkCells(buf, n, e + 1, Take(c, x.word, e + 1), cells[1..], end);
    }
  }

  function Spaces(n: nat): string { seq(n, _ => ' ') }

  function Text(cells: seq<Cell>): string {
    if cells == [] then "" else cells[0].word + Spaces(cells[0].pad) + Text(cells[1..])
  }

  lemma CellStands(buf: string, i: nat, w: string, pad: nat, rest: string)
    requires HasText(buf, i, w + Spaces(pad) + rest)
    ensures var e, n := i + |w|, i + |w| + pad;
      buf[i..e] == w && (forall k :: e <= k < n ==> buf[k] == ' ') && HasText(buf, n, rest)
  {
    var text := w + Spaces(pad) + rest;
    forall k | 0 <= k < |w| ensures buf[i + k] == w[k] { assert text[k] == w[k]; }
    forall k | i + |w| <= k < i + |w| + pad ensures buf[k] == ' ' { assert text[k - i] == ' '; }
    forall k | 0 <= k < |rest| ensures buf[i + |w| + pad + k] == rest[k] { assert text[|w| + pad + k] == rest[k]; }
  }

  lemma {:induction false} ShowsText(buf: string, i: nat, cells: seq<Cell>)
    requires AllOk(cells) && HasText(buf, i, Text(cells))
    ensures Shows(buf, i, cells) && |Text(cells)| == Width(cells)
    decreases |cells|
  {
    if cells != [] {
      var x := cells[0];
      CellStands(buf, i, x.word, x.pad, Text(cells[1..]));
      ShowsText(buf, i + |x.word| + x.pad, cells[1..]);
    }
  }

  /** One more column in front. */
  lemma TakeFirst(c: Cols, x: Cell, cells: seq<Cell>, i: nat)
    requires c.state != 0
    ensures var next, n := Take(c, x.word, i + |x.word| + 1), i + |x.word| + x.pad;
      && TakeCells(c, [x] + cells, i) == TakeCells(next, cells, n)
      && (Steady(next, cells, n) ==> Steady(c, [x] + cells, i))
  {
    assert ([x] + cells)[1..] == cells;
  }

  function Two(n: nat): string
    requires n < 100
  {
    [('0' as int + n / 10) as char, ('0' as int + n % 10) as char]
  }

  lemma GetLongOfTwo(n: nat)
    requires n < 100
    ensures GetLong(Two(n)) == n
  {
    var s := Two(n);
    assert s[..1][..0] == "" && Digit(s[0]) == n / 10 && Digit(s[1]) == n % 10;
    assert GetLong(s[..1]) == n / 10;
  }

  /** What the last column before the name shows. */
  datatype When = TimeOfDay(hour: nat, minute: nat) | InYear(year: nat)

  predicate Prints(w: string, t: When) {
    match t
    case TimeOfDay(h, m) => h < 100 && m < 100 && (w == Two(h) + ":" + Two(m) || w == Decimal(h) + ":" + Two(m))
    case InYear(y) => 1000 <= y && w == Decimal(y)
  }

  lemma ShortDecimal(n: nat)
    ensures n < 10 ==> |Decimal(n)| == 1
    ensures 10 <= n < 100 ==> Decimal(n) == Two(n)
    ensures 100 <= n ==> |Decimal(n)| >= 3
    ensures 1000 <= n ==> |Decimal(n)| >= 4
  {
    if n >= 100 {
      ShortDecimal(n / 10);
    }
  }

  lemma TakePrinted(c: Cols, w: string, after: nat, t: When)
    requires Prints(w, t)
    ensures TakeTime(c, w, after).stamp == match t
      case TimeOfDay(h, m) => Minute(c.month, c.mday, h, m)
      case InYear(y) => Day(y, c.month, c.mday)
  {
    match t
    case TimeOfDay(h, m) =>
      ShortDecimal(h);
      GetLongOfDecimal(h);
      GetLongOfTwo(h);
      GetLongOfTwo(m);
      if |w| == 4 {
        assert w[..1] == Decimal(h) && w[2..4] == Two(m);
      } else {
        assert w[..2] == Two(h) && w[3..5] == Two(m);
      }
    case InYear(y) =>
      ShortDecimal(y);
      GetLongOfDecimal(y);
      assert w[1] != ':' && w[2] != ':';
  }

  /** A line of ls -l and its like: the owner is a user, or a user and a group.  NetPresenz
      shows "folder" for a directory in place of links and user; NetWare puts one character
      in front of its rights. */
  datatype Ls = Ls(perm: string, nlink: string, owner: seq<string>, size: nat, mon: string, month: nat,
                   mday: nat, when: string, pads: seq<nat>, name: string) {

    ghost predicate Ok() {
      && (if Folder() then |owner| <= 1 else 1 <= |owner| <= 2) && |pads| == 6 + |owner|
      && (forall x :: 0 <= x < |pads| ==> pads[x] > 0)
      && Word(perm) && Word(nlink) && (forall x :: 0 <= x < |owner| ==> Word(owner[x])) && Word(when)
      && month < 12 && |mon| == 3 && Check(mon, MONTHS[month])
      && |when| >= 4
    }

    predicate Folder() { |nlink| == 6 && nlink[0] == 'f' }

    function Pad(x: nat): nat { if x < |pads| then pads[x] else 1 }

    /** Size, month, day of the month, and the time or the year, which one space follows. */
    function When(): seq<Cell> { [Cell(when, 1)] + [] }
    function Day(): seq<Cell> { [Cell(Decimal(mday), Pad(4 + |owner|))] + When() }
    function Month(): seq<Cell> { [Cell(mon, Pad(3 + |owner|))] + Day() }
    function Dated(): seq<Cell> { [Cell(Decimal(size), Pad(2 + |owner|))] + Month() }

    function Owned(): seq<Cell> {
      if |owner| == 0 then Dated()
      else if |owner| == 1 then [Cell(owner[0], Pad(2))] + Dated()
      else [Cell(owner[0], Pad(2))] + ([Cell(owner[1], Pad(3))] + Dated())
    }

    function Cells(): seq<Cell> {
      [Cell(perm, Pad(0))] + ([Cell(nlink, Pad(1))] + Owned())
    }

    function Line(): string { Text(Cells()) + name }
  }

  ghost predicate Word(w: string) {
    w != "" && forall i :: 0 <= i < |w| ==> w[i] != ' '
  }

  ghost predicate Read(c: Cols, l: Ls, name: int) {
    && c.state == 8 && c.size == l.size && c.month == l.month && c.mday == l.mday && c.name == name
    && c.stamp == TakeTime(c, l.when, 0).stamp
  }

  /** The cells from some column on are read as they should be. */
  ghost predicate Reads(l: Ls, c: Cols, cells: seq<Cell>, i: nat) {
    Read(TakeCells(c, cells, i), l, i + Width(cells)) && Steady(c, cells, i)
  }

  lemma ReadsMore(l: Ls, c: Cols, x: Cell, cells: seq<Cell>, i: nat)
    requires c.state != 0
    requires Reads(l, Take(c, x.word, i + |x.word| + 1), cells, i + |x.word| + x.pad)
    ensures Reads(l, c, [x] + cells, i)
  {
    TakeFirst(c, x, cells, i);
    assert ([x] + cells)[1..] == cells;
  }

  lemma ReadsWhen(l: Ls, c: Cols, i: nat)
    requires l.Ok() && c.state == 7 && c.size == l.size && c.month == l.month && c.mday == l.mday
    ensures Reads(l, c, l.When(), i)
  {
    TakeFirst(c, Cell(l.when, 1), [], i);
  }

  lemma ReadsDay(l: Ls, c: Cols, i: nat)
    requires l.Ok() && c.state == 6 && c.size == l.size && c.month == l.month
    ensures Reads(l, c, l.Day(), i)
  {
    var x := Cell(Decimal(l.mday), l.Pad(4 + |l.owner|));
    GetLongOfDecimal(l.mday);
    ReadsWhen(l, Take(c, x.word, i + |x.word| + 1), i + |x.word| + x.pad);
    ReadsMore(l, c, x, l.When(), i);
  }

  lemma ReadsMonth(l: Ls, c: Cols, i: nat)
    requires l.Ok() && c.state == 5 && c.size == l.size
    ensures Reads(l, c, l.Month(), i)
  {
    var x := Cell(l.mon, l.Pad(3 + |l.owner|));
    GetMonthFinds(l.mon, l.month, 0);
    ReadsDay(l, Take(c, x.word, i + |x.word| + 1), i + |x.word| + x.pad);
    ReadsMore(l, c, x, l.Day(), i);
  }

  lemma TakeSize(c: Cols, n: nat, after: nat)
    requires c.state == 4 || c.state == 5
    ensures Take(c, Decimal(n), after) == c.(state := 5, size := n)
  {
    GetLongOfDecimal(n);
    if |Decimal(n)| == 3 {
      NotAMonth(Decimal(n), 0);
    }
  }

  lemma ReadsSize(l: Ls, c: Cols, i: nat)
    requires l.Ok() && (c.state == 4 || c.state == 5)
    ensures Reads(l, c, l.Dated(), i)
  {
    var x := Cell(Decimal(l.size), l.Pad(2 + |l.owner|));
    TakeSize(c, l.size, i + |x.word| + 1);
    ReadsMonth(l, Take(c, x.word, i + |x.word| + 1), i + |x.word| + x.pad);
    ReadsMore(l, c, x, l.Month(), i);
  }

  lemma ReadsGroup(l: Ls, c: Cols, y: Cell, i: nat)
    requires l.Ok() && c.state == 4 && y.word != ""
    ensures Reads(l, c, [y] + l.Dated(), i)
  {
    ReadsSize(l, Take(c, y.word, i + |y.word| + 1), i + |y.word| + y.pad);
    ReadsMore(l, c, y, l.Dated(), i);
  }

  /** A group, if there is one, is first taken for the size. */
  lemma ReadsOwner(l: Ls, c: Cols, i: nat)
    requires l.Ok() && c.state == 3 && |l.owner| > 0
    ensures Reads(l, c, l.Owned(), i)
  {
    var x := Cell(l.owner[0], l.Pad(2));
    var c1, i1 := Take(c, x.word, i + |x.word| + 1), i + |x.word| + x.pad;
    if |l.owner| == 1 {
      ReadsSize(l, c1, i1);
      ReadsMore(l, c, x, l.Dated(), i);
    } else {
      var y := Cell(l.owner[1], l.Pad(3));
      ReadsGroup(l, c1, y, i1);
      ReadsMore(l, c, x, [y] + l.Dated(), i);
    }
  }

  lemma ReadsFolder(l: Ls, c: Cols, i: nat)
    requires l.Ok() && c.state == 4 && |l.owner| <= 1
    ensures Reads(l, c, l.Owned(), i)
  {
    if |l.owner| == 0 {
      ReadsSize(l, c, i);
    } else {
      var x := Cell(l.owner[0], l.Pad(2));
      ReadsSize(l, Take(c, x.word, i + |x.word| + 1), i + |x.word| + x.pad);
      ReadsMore(l, c, x, l.Dated(), i);
    }
  }

  lemma ReadsLine(l: Ls)
    requires l.Ok()
    ensures Reads(l, START, l.Cells(), 0)
  {
    var x, y := Cell(l.perm, l.Pad(0)), Cell(l.nlink, l.Pad(1));
    var c1, i1 := Take(START, x.word, |x.word| + 1), |x.word| + x.pad;
    var c2, i2 := Take(c1, y.word, i1 + |y.word| + 1), i1 + |y.word| + y.pad;
    if l.Folder() {
      ReadsFolder(l, c2, i2);
    } else {
      ReadsOwner(l, c2, i2);
    }
    ReadsMore(l, c1, y, l.Owned(), i1);
    ReadsMore(l, START, x, [y] + l.Owned(), 0);
  }

  ghost predicate AllOk(cells: seq<Cell>) { forall k :: 0 <= k < |cells| ==> cells[k].Ok() }

  lemma CellsOk(l: Ls)
    requires l.Ok()
    ensures AllOk(l.Cells())
  {
    assert AllOk(l.When()) && AllOk(l.Day()) && AllOk(l.Month()) && AllOk(l.Dated());
    assert AllOk(l.Owned());
  }

  /** What ls prints is read back, whatever the name holds. */
  lemma LsReadBack(l: Ls)
    requires l.Ok()
    ensures var buf := l.Line(); Read(Walk(buf, 0, 1, START), l, |buf| - |l.name|)
  {
    var buf, cells := l.Line(), l.Cells();
    CellsOk(l);
    ShowsText(buf, 0, cells);
    ReadsLine(l);
    WalkCells(buf, 0, 1, START, cells, TakeCells(START, cells, 0));
  }

  lemma LsEnds(l: Ls)
    requires l.Ok()
    ensures var buf := l.Line();
      && |buf| >= 2 + |l.name| && buf[0] == l.perm[0] && buf[1] == (l.perm + " ")[1]
      && buf[|buf| - |l.name|..] == l.name
  {
    assert l.Cells()[0].word == l.perm;
    assert Text(l.Cells()) == l.perm + Spaces(l.Pad(0)) + Text(l.Cells()[1..]);
  }

  /** First arrow of a symbolic link with something after it, or the length. */
  function Arrow(name: string, i: nat): (k: nat)
    requires i <= |name|
    ensures i <= k <= |name|
    decreases |name| - i
  {
    if i + 3 >= |name| then |name|
    else if name[i] == ' ' && name[i + 1] == '-' && name[i + 2] == '>' && name[i + 3] == ' ' then i
    else Arrow(name, i + 1)
  }

  predicate ArrowAt(name: string, k: nat) {
    k + 4 <= |name| && name[k..k + 4] == " -> "
  }

  /** The arrow found is the first one. */
  lemma {:induction false} ArrowIsFirst(name: string, i: nat, k: nat)
    requires i <= k && (k == |name| || ArrowAt(name, k))
    requires forall x :: i <= x < k ==> !ArrowAt(name, x)
    ensures Arrow(name, i) == k
    decreases k - i
  {
    if i + 3 < |name| {
      assert name[i..i + 4] == [name[i], name[i + 1], name[i + 2], name[i + 3]];
      if i < k {
        assert !ArrowAt(name, i);
        ArrowIsFirst(name, i + 1, k);
      }
    }
  }

  /** What the rest of a line is taken to name. */
  function NameOf(buf: string, rest: string): string
    requires |buf| >= 2
  {
    var cut := if buf[0] == 'l' then rest[..Arrow(rest, 0)] else rest;
    if (buf[1] == ' ' || buf[1] == '[') && |cut| > 3 && cut[..3] == "   " then cut[3..] else cut
  }

  datatype MTime = MTIME_UNKNOWN | MTIME_LOCAL | MTIME_REMOTEMINUTE | MTIME_REMOTEDAY

  /** struct ftpparse; names and identifiers are ranges of the line. */
  datatype Entry = Entry(name: nat, namelen: nat, flagtrycwd: bool, flagtryretr: bool, sizeKnown: bool, size: int,
                         mtimetype: MTime, mtime: int, idFull: bool, id: nat, idlen: nat)

  const BLANK := Entry(0, 0, false, false, false, 0, MTIME_UNKNOWN, 0, false, 0, 0)

  /** The modification time a stamp stands for, on a clock; only one without a year needs
      to know what time it is now. */
  function TimeOf(stamp: Stamp, base: int, now: int, currentYear: int): int {
    match stamp
    case Never => 0
    case Minute(month, mday, hour, minute) =>
      base + Guess(now, InYears(currentYear - 1, month, mday), 0) + hour * 3600 + minute * 60
    case Day(year, month, mday) => base + Totai(year, month, mday)
    case Moment(year, month, mday, hour, minute) => base + Totai(year, month, mday) + hour * 3600 + minute * 60
  }

  function TypeOf(stamp: Stamp): MTime {
    match stamp case Never => MTIME_UNKNOWN case Day(_, _, _) => MTIME_REMOTEDAY case _ => MTIME_REMOTEMINUTE
  }

  /** The seconds from the epoch to a minute of a date. */
  function Seconds(y: int, m: int, d: int, hour: int, minute: int): int
    requires Valid(y, m, d)
  {
    86400 * (Days(y, m, d) - Days(1970, 0, 1)) + 3600 * hour + 60 * minute
  }

  /** A date with a year is that date. */
  lemma TimeOfDate(stamp: Stamp, base: int, now: int, currentYear: int)
    requires (stamp.Day? || stamp.Moment?) && Valid(stamp.year, stamp.month, stamp.mday)
    ensures TimeOf(stamp, base, now, currentYear) == base +
      if stamp.Day? then Seconds(stamp.year, stamp.month, stamp.mday, 0, 0)
      else Seconds(stamp.year, stamp.month, stamp.mday, stamp.hour, stamp.minute)
    ensures TypeOf(stamp) == if stamp.Day? then MTIME_REMOTEDAY else MTIME_REMOTEMINUTE
  {
    TotaiIsDayCount(stamp.year, stamp.month, stamp.mday);
  }

  /** The clock knows the year well enough for guesstai on this day. */
  ghost predicate Today(t: Date, now: int, currentYear: int) {
    Valid(t.y, t.m, t.d) && 0 <= now - Totai(t.y, t.m, t.d) < DAY && 2 <= currentYear <= t.y <= currentYear + 98
  }

  /** A date without a year is in the year that puts it less than 350 days ago and at most 16
      days ahead. */
  lemma TimeOfDay(stamp: Stamp, base: int, now: int, currentYear: int, today: Date) returns (y: int)
    requires stamp.Minute? && EveryYear(stamp.month, stamp.mday) && Today(today, now, currentYear)
    ensures Valid(y, stamp.month, stamp.mday) && TypeOf(stamp) == MTIME_REMOTEMINUTE
    ensures TimeOf(stamp, base, now, currentYear) == base + Seconds(y, stamp.month, stamp.mday, stamp.hour, stamp.minute)
    ensures InWindow(Seconds(y, stamp.month, stamp.mday, 0, 0), now)
  {
    y := GuessedYear(now, currentYear, stamp.month, stamp.mday, today);
    TotaiIsDayCount(y, stamp.month, stamp.mday);
  }

  lemma GuessedYear(now: int, currentYear: int, month: int, mday: int, today: Date) returns (y: int)
    requires EveryYear(month, mday) && Today(today, now, currentYear)
    ensures Valid(y, month, mday) && InWindow(Totai(y, month, mday), now)
    ensures Guess(now, InYears(currentYear - 1, month, mday), 0) == Totai(y, month, mday)
  {
    var at := InYears(currentYear - 1, month, mday);
    GuessSucceeds(now, currentYear, month, mday, today.y, today.m, today.d);
    var i :| 0 <= i < |at| && at[i] == Guess(now, at, 0);
    y := currentYear - 1 + i;
    DaysYearLater(y, month, mday);
  }

  /** A name that lies within the line, as ftpparse.h promises. */
  predicate Within(fp: Entry, buf: string) {
    fp.name + fp.namelen <= |buf| && fp.id + fp.idlen <= |buf|
  }

  function Name(fp: Entry, buf: string): string
    requires Within(fp, buf)
  {
    buf[fp.name..fp.name + fp.namelen]
  }

  method GetLongOf(buf: string, at: nat, len: nat) returns (u: int)
    requires at + len <= |buf|
    ensures u == GetLong(buf[at..at + len])
  {
    u := 0;
    var p := 0;
    while p < len
      invariant p <= len && u == GetLong(buf[at..at + p])
    {
      assert buf[at..at + p + 1][..p] == buf[at..at + p];
      u := u * 10 + Digit(buf[at + p]);
      p := p + 1;
    }
  }

  method GetMonthOf(buf: string, at: nat, len: nat) returns (r: int)
    requires at + len <= |buf|
    ensures r == GetMonth(buf[at..at + len])
  {
    var w := buf[at..at + len];
    if len == 3 {
      var i := 0;
      while i < 12
        invariant i <= 12 && FirstMonth(w, i) == FirstMonth(w, 0)
      {
        if Check(w, MONTHS[i]) {
          return i;
        }
        i := i + 1;
      }
    }
    return -1;
  }

  /** The column loop; mtime is worked out as soon as the time column has been read. */
  method Columns(buf: string, clock: Clock, zero: Tm, time: int) returns (c: Cols, mtime: int)
    requires |buf| >= 2
    modifies clock
    ensures c == Walk(buf, 0, 1, START)
    ensures c.state == 8 ==> mtime == TimeOf(c.stamp, clock.base, clock.now, clock.currentYear)
    ensures c.stamp.Minute? ==> clock.now == time - clock.base
  {
    c, mtime := START, 0;
    var i, j := 0, 1;
    while j < |buf|
      invariant 1 <= j <= |buf| && i <= |buf| && Between(buf, i, j) && c.state != 0
      invariant Walk(buf, i, j, c) == Walk(buf, 0, 1, START)
      invariant c.state != 8 ==> c.stamp == Never
      invariant c.state == 8 ==> mtime == TimeOf(c.stamp, clock.base, clock.now, clock.currentYear)
      invariant c.stamp.Minute? ==> clock.now == time - clock.base
    {
      if buf[j] == ' ' && buf[j - 1] != ' ' {
        ghost var c0 := c;
        if c.state == 7 {
          c, mtime := TimeColumn(buf, i, j, c, clock, zero, time);
        } else {
          c := Column(buf, i, j, c);
        }
        assert c == Take(c0, buf[i..j], j + 1);
        if c.state == 0 {
          return;
        }
        i := j + 1;
        while i < |buf| && buf[i] == ' '
          invariant j + 1 <= i <= |buf|
          invariant SkipSpaces(buf, i) == SkipSpaces(buf, j + 1)
          invariant forall k :: j <= k < i ==> buf[k] == ' '
        {
          i := i + 1;
        }
      }
      j := j + 1;
    }
  }

  /** Every state of the switch but the seventh. */
  method Column(buf: string, i: nat, j: nat, c: Cols) returns (r: Cols)
    requires i < j < |buf| && c.state != 0 && c.state != 7
    ensures r == Take(c, buf[i..j], j + 1)
  {
    r := c;
    match c.state {
      case 1 => r := c.(state := 2);
      case 2 =>
        r := c.(state := 3);
        if j - i == 6 && buf[i] == 'f' {
          r := c.(state := 4);
        }
      case 3 => r := c.(state := 4);
      case 4 =>
        var size := GetLongOf(buf, i, j - i);
        r := c.(state := 5, size := size);
      case 5 =>
        var month := GetMonthOf(buf, i, j - i);
        if month >= 0 {
          r := c.(state := 6, month := month);
        } else {
          var size := GetLongOf(buf, i, j - i);
          r := c.(size := size);
        }
      case 6 =>
        var mday := GetLongOf(buf, i, j - i);
        r := c.(state := 7, mday := mday);
      case _ =>
    }
  }

  method TimeColumn(buf: string, i: nat, j: nat, c: Cols, clock: Clock, zero: Tm, time: int) returns (r: Cols, mtime: int)
    requires i < j < |buf| && c.state == 7 && c.stamp == Never
    modifies clock
    ensures r == Take(c, buf[i..j], j + 1)
    ensures r.state == 8 ==> mtime == TimeOf(r.stamp, clock.base, clock.now, clock.currentYear)
    ensures r.stamp.Minute? ==> clock.now == time - clock.base
  {
    var w := buf[i..j];
    mtime := 0;
    if (j - i == 4 && buf[i + 1] == ':') || (j - i == 5 && buf[i + 2] == ':') {
      var h := if j - i == 4 then 1 else 2;
      assert buf[i..i + h] == w[..h] && buf[i + h + 1..i + h + 3] == w[h + 1..h + 3];
      var hour := GetLongOf(buf, i, h);
      var minute := GetLongOf(buf, i + h + 1, 2);
      clock.InitBase(zero);
      var t := clock.GuessTai(zero, time, c.month, c.mday);
      mtime := clock.base + t + hour * 3600 + minute * 60;
      r := c.(state := 8, name := j + 1, stamp := Minute(c.month, c.mday, hour, minute));
    } else if j - i >= 4 {
      var year := GetLongOf(buf, i, j - i);
      clock.InitBase(zero);
      mtime := clock.base + Totai(year, c.month, c.mday);
      r := c.(state := 8, name := j + 1, stamp := Day(year, c.month, c.mday));
    } else {
      r := c.(state := 0);
    }
  }

  predicate UnixType(c: char) { c == 'b' || c == 'c' || c == 'd' || c == 'l' || c == 'p' || c == 's' || c == '-' }

  /** What a UNIX-style line gives: everything a later column decides is in c. */
  ghost predicate UnixEntry(buf: string, c: Cols, fp: Entry, base: int, now: int, currentYear: int)
    requires |buf| >= 2 && c.name <= |buf|
  {
    && Within(fp, buf) && Name(fp, buf) == NameOf(buf, buf[c.name..])
    && fp.flagtrycwd == (buf[0] == 'd' || buf[0] == 'l') && fp.flagtryretr == (buf[0] == '-' || buf[0] == 'l')
    && fp.sizeKnown && fp.size == c.size
    && fp.mtimetype == TypeOf(c.stamp) && fp.mtime == TimeOf(c.stamp, base, now, currentYear)
    && !fp.idFull
  }

  method Unix(buf: string, clock: Clock, zero: Tm, time: int) returns (ok: bool, fp: Entry)
    requires |buf| >= 2 && UnixType(buf[0])
    modifies clock
    ensures Within(fp, buf)
    ensures ok == (Walk(buf, 0, 1, START).state == 8)
    ensures ok ==> var c := Walk(buf, 0, 1, START);
      c.name <= |buf| && UnixEntry(buf, c, fp, clock.base, clock.now, clock.currentYear)
  {
    fp := BLANK;
    if buf[0] == 'd' { fp := fp.(flagtrycwd := true); }
    if buf[0] == '-' { fp := fp.(flagtryretr := true); }
    if buf[0] == 'l' { fp := fp.(flagtrycwd := true, flagtryretr := true); }
    var c, mtime := Columns(buf, clock, zero, time);
    WalkNames(buf, 0, 1, START);
    if c.state != 8 {
      return false, fp;
    }
    fp := fp.(sizeKnown := true, size := c.size, mtimetype := TypeOf(c.stamp), mtime := mtime);
    var name, namelen := UnixName(buf, c.name);
    fp := fp.(name := name, namelen := namelen);
    ok := true;
  }

  /** Cut a link's target off. */
  method LinkLength(buf: string, name: nat) returns (namelen: nat)
    requires name <= |buf|
    ensures namelen == Arrow(buf[name..], 0)
  {
    namelen := |buf| - name;
    ghost var rest := buf[name..];
    var i := 0;
    while i + 3 < namelen
      invariant i <= namelen == |rest| && Arrow(rest, i) == Arrow(rest, 0)
    {
      if buf[name + i] == ' ' && buf[name + i + 1] == '-' && buf[name + i + 2] == '>' && buf[name + i + 3] == ' ' {
        return i;
      }
      i := i + 1;
    }
  }

  /** Cut a link's target off, then NetWare's spaces. */
  method UnixName(buf: string, start: nat) returns (name: nat, namelen: nat)
    requires |buf| >= 2 && start <= |buf|
    ensures name + namelen <= |buf| && buf[name..name + namelen] == NameOf(buf, buf[start..])
  {
    name, namelen := start, |buf| - start;
    if buf[0] == 'l' {
      namelen := LinkLength(buf, start);
    }
    ghost var cut := buf[name..name + namelen];
    assert cut == if buf[0] == 'l' then buf[start..][..Arrow(buf[start..], 0)] else buf[start..];
    assert |cut| > 3 && cut[..3] == "   " ==> cut[0] == cut[..3][0] && cut[1] == cut[..3][1] && cut[2] == cut[..3][2];
    if buf[1] == ' ' || buf[1] == '[' {
      if namelen > 3 && buf[name] == ' ' && buf[name + 1] == ' ' && buf[name + 2] == ' ' {
        assert cut[..3] == "   ";
        name, namelen := name + 3, namelen - 3;
        assert buf[name..name + namelen] == cut[3..];
        return;
      }
    }
  }

  /** The line ls prints for a file that is no link: exactly its name comes back. */
  lemma LsName(l: Ls)
    requires l.Ok() && l.perm[0] != 'l' && |l.perm| >= 2 && l.perm[1] != '['
    ensures NameOf(l.Line(), l.Line()[|l.Line()| - |l.name|..]) == l.name
  {
    LsEnds(l);
  }

  /** A symbolic link: the name ends at the first arrow. */
  lemma LinkName(l: Ls, k: nat)
    requires l.Ok() && l.perm[0] == 'l' && |l.perm| >= 2 && l.perm[1] != '['
    requires k == |l.name| || ArrowAt(l.name, k)
    requires k <= |l.name| && forall x :: 0 <= x < k ==> !ArrowAt(l.name, x)
    ensures NameOf(l.Line(), l.Line()[|l.Line()| - |l.name|..]) == l.name[..k]
  {
    LsEnds(l);
    ArrowIsFirst(l.name, 0, k);
  }

  /** NetWare: one character, then the rights, and four spaces before a name. */
  lemma NetWareName(l: Ls, name: string)
    requires l.Ok() && |l.perm| == 1 && l.perm[0] != 'l' && name != "" && l.name == "   " + name
    ensures NameOf(l.Line(), l.Line()[|l.Line()| - |l.name|..]) == name
  {
    LsEnds(l);
  }

  /** The round trip: whatever Unix may return for a printed line has the printed name,
      size, kind and date. */
  lemma LsRoundTrip(l: Ls, fp: Entry, base: int, now: int, currentYear: int)
    requires l.Ok() && l.perm[0] != 'l' && |l.perm| >= 2 && l.perm[1] != '['
    ensures var buf := l.Line(); var c := Walk(buf, 0, 1, START);
      && c.state == 8 && c.name <= |buf|
      && (|buf| >= 2 && UnixEntry(buf, c, fp, base, now, currentYear) ==>
        && Name(fp, buf) == l.name && fp.size == l.size
        && (fp.flagtrycwd <==> l.perm[0] == 'd') && (fp.flagtryretr <==> l.perm[0] == '-')
        && fp.mtime == TimeOf(TakeTime(Cols(7, l.size, l.month, l.mday, Never, 0), l.when, 0).stamp, base, now, currentYear))
  {
    LsReadBack(l);
    LsEnds(l);
    LsName(l);
  }

  // Which lines are listings at all.

  /** The state after a word; state 0 gives up, and 8 has all it needs. */
  function NextState(s: nat, w: string): nat {
    match s
    case 1 => 2
    case 2 => if |w| == 6 && w[0] == 'f' then 4 else 3
    case 3 => 4
    case 4 => 5
    case 5 => if GetMonth(w) >= 0 then 6 else 5
    case 6 => 7
    case 7 => if |w| >= 4 then 8 else 0
    case _ => s
  }

  function States(s: nat, cells: seq<Cell>, k: nat): nat
    requires k <= |cells|
    decreases |cells| - k
  {
    if k == |cells| then s else States(NextState(s, cells[k].word), cells, k + 1)
  }

  lemma {:induction false} StatesEnd(s: nat, cells: seq<Cell>, k: nat)
    requires k <= |cells| && (s == 0 || s == 8)
    ensures States(s, cells, k) == s
    decreases |cells| - k
  {
    if k < |cells| {
      StatesEnd(s, cells, k + 1);
    }
  }

  /** A word that no space follows changes nothing. */
  lemma {:induction false} WalkTail(buf: string, i: nat, j: nat, c: Cols)
    requires Between(buf, i, j) && forall k :: j <= k < |buf| ==> buf[k] != ' ' || buf[k - 1] == ' '
    ensures Walk(buf, i, j, c) == c
    decreases |buf| - j
  {
    if j < |buf| && c.state != 0 {
      WalkTail(buf, i, j + 1, c);
    }
  }

  ghost predicate TailFrom(buf: string, i: nat) {
    i <= |buf| && forall k :: i <= k < |buf| ==> buf[k] != ' '
  }

  ghost predicate WordsFrom(buf: string, i: nat, cells: seq<Cell>) {
    Standing(buf, i, cells) && TailFrom(buf, i + Width(cells))
  }

  /** One word, and the next one starts at n. */
  lemma WalkOne(buf: string, i: nat, j: nat, c: Cols, cells: seq<Cell>) returns (e: nat, n: nat)
    requires cells != [] && Between(buf, i, j) && j <= i + 1 && WordsFrom(buf, i, cells) && c.state != 0
    ensures n == i + |cells[0].word| + cells[0].pad && e == i + |cells[0].word| <= n && WordsFrom(buf, n, cells[1..])
    ensures Between(buf, n, e + 1) && Walk(buf, i, j, c) == Walk(buf, n, e + 1, Take(c, cells[0].word, e + 1))
  {
    var x := cells[0];
    e, n := i + |x.word|, i + |x.word| + x.pad;
    StandingFirst(buf, i, cells);
    WalkCell(buf, i, j, c, x);
    assert Width(cells) == |x.word| + x.pad + Width(cells[1..]);
    assert n < |buf| ==> buf[n] != ' ' by {
      if cells[1..] == [] { assert Width(cells[1..]) == 0; }
    }
  }

  lemma {:induction false} WalkStates(buf: string, i: nat, j: nat, c: Cols, cells: seq<Cell>, k: nat)
    requires k <= |cells| && Between(buf, i, j) && j <= i + 1 && WordsFrom(buf, i, cells[k..])
    ensures Walk(buf, i, j, c).state == States(c.state, cells, k)
    decreases |cells| - k
  {
    if c.state == 0 {
      StatesEnd(c.state, cells, k);
    } else if c.state == 8 {
      StatesEnd(c.state, cells, k);
      WalkDone(buf, i, j, c);
    } else if k == |cells| {
      WalkTail(buf, i, j, c);
    } else {
      assert cells[k..][1..] == cells[k + 1..];
      var e, n := WalkOne(buf, i, j, c, cells[k..]);
      TakeState(c, cells[k].word, e + 1);
      WalkStates(buf, n, e + 1, Take(c, cells[k].word, e + 1), cells, k + 1);
    }
  }

  lemma TakeState(c: Cols, w: string, after: nat)
    ensures Take(c, w, after).state == NextState(c.state, w)
  {
  }

  /** A month, first among the words from k on, then a day, then a time or year of four
      characters or more. */
  ghost predicate Dated(cells: seq<Cell>, k: nat) {
    exists m: nat :: MonthFirst(cells, k, m) && m + 2 < |cells| && |cells[m + 2].word| >= 4
  }

  predicate MonthFirst(cells: seq<Cell>, k: nat, m: nat) {
    k <= m < |cells| && GetMonth(cells[m].word) >= 0 && forall x :: k <= x < m ==> GetMonth(cells[x].word) < 0
  }

  lemma {:induction false} DatedStates(cells: seq<Cell>, k: nat)
    requires k <= |cells|
    ensures States(5, cells, k) == 8 <==> Dated(cells, k)
    decreases |cells| - k
  {
    if k < |cells| {
      if GetMonth(cells[k].word) >= 0 {
        MonthStates(cells, k);
      } else {
        DatedStates(cells, k + 1);
        assert States(5, cells, k) == States(5, cells, k + 1);
        if Dated(cells, k) {
          var m: nat :| MonthFirst(cells, k, m) && m + 2 < |cells| && |cells[m + 2].word| >= 4;
          assert MonthFirst(cells, k + 1, m);
        }
        if Dated(cells, k + 1) {
          var m: nat :| MonthFirst(cells, k + 1, m) && m + 2 < |cells| && |cells[m + 2].word| >= 4;
          assert MonthFirst(cells, k, m);
        }
      }
    }
  }

  lemma MonthStates(cells: seq<Cell>, k: nat)
    requires k < |cells| && GetMonth(cells[k].word) >= 0
    ensures States(5, cells, k) == 8 <==> Dated(cells, k)
  {
    assert forall m: nat :: MonthFirst(cells, k, m) <==> m == k;
    assert States(5, cells, k) == States(6, cells, k + 1);
    if k + 2 < |cells| {
      var w := cells[k + 2].word;
      assert States(6, cells, k + 1) == States(7, cells, k + 2) == States(NextState(7, w), cells, k + 3);
      StatesEnd(NextState(7, w), cells, k + 3);
      assert Dated(cells, k) <==> |w| >= 4 by {
        if |w| >= 4 { assert MonthFirst(cells, k, k); }
      }
    } else {
      assert States(6, cells, k + 1) == if k + 1 < |cells| then States(7, cells, k + 2) else 6;
    }
  }

  /** The words before the size: three, or two for a NetPresenz folder. */
  function Before(cells: seq<Cell>): nat {
    if |cells| > 1 && |cells[1].word| == 6 && cells[1].word[0] == 'f' then 2 else 3
  }

  lemma ListingStates(cells: seq<Cell>)
    ensures States(1, cells, 0) == 8 <==> Dated(cells, Before(cells) + 1)
  {
    var b := Before(cells);
    StateTwo(cells);
    if |cells| > b {
      assert States(4, cells, b) == States(5, cells, b + 1);
      DatedStates(cells, b + 1);
    }
  }

  /** From the first word to the size. */
  lemma StateTwo(cells: seq<Cell>)
    ensures |cells| > Before(cells) ==> States(1, cells, 0) == States(4, cells, Before(cells))
    ensures |cells| <= Before(cells) ==> States(1, cells, 0) <= 4
  {
    if |cells| > 1 {
      assert States(1, cells, 0) == States(2, cells, 1) == States(NextState(2, cells[1].word), cells, 2);
      if |cells| > 2 {
        assert States(3, cells, 2) == States(4, cells, 3);
      }
    }
  }

  lemma FirstWord(buf: string) returns (x: Cell, rest: string)
    requires buf != "" && buf[0] != ' ' && ' ' in buf
    ensures x.Ok() && buf == x.word + Spaces(x.pad) + rest && (rest == "" || rest[0] != ' ')
  {
    var e := Until(buf, 0, ' ');
    UntilFirst(buf, 0, ' ');
    var n := SkipSpaces(buf, e);
    x, rest := Cell(buf[..e], n - e), buf[n..];
    assert buf[e..n] == Spaces(n - e) && buf == buf[..e] + buf[e..n] + buf[n..];
  }

  /** The words of a line, with the spaces after them; the last one has none after it. */
  lemma {:induction false} LineWords(buf: string) returns (cells: seq<Cell>, tail: string)
    requires buf == "" || buf[0] != ' '
    ensures AllOk(cells) && ' ' !in tail && buf == Text(cells) + tail
    decreases |buf|
  {
    if ' ' !in buf {
      cells, tail := [], buf;
    } else {
      var x, rest := FirstWord(buf);
      cells, tail := LineWords(rest);
      WordsMore(x, cells, tail);
      cells := [x] + cells;
    }
  }

  lemma WordsMore(x: Cell, cells: seq<Cell>, tail: string)
    requires x.Ok() && AllOk(cells)
    ensures AllOk([x] + cells) && Text([x] + cells) + tail == x.word + Spaces(x.pad) + (Text(cells) + tail)
  {
    assert ([x] + cells)[1..] == cells;
  }

  lemma {:induction false} UntilFirst(buf: string, i: nat, c: char)
    requires i <= |buf|
    ensures var e := Until(buf, i, c); (forall k :: i <= k < e ==> buf[k] != c) && (e < |buf| ==> buf[e] == c)
    decreases |buf| - i
  {
    if i < |buf| && buf[i] != c {
      UntilFirst(buf, i + 1, c);
    }
  }

  /** A line is a listing of a file exactly when its words are dated. */
  lemma ListingExactly(cells: seq<Cell>, tail: string)
    requires AllOk(cells) && ' ' !in tail && |Text(cells) + tail| >= 2
    ensures Walk(Text(cells) + tail, 0, 1, START).state == 8 <==> Dated(cells, Before(cells) + 1)
  {
    var buf := Text(cells) + tail;
    assert HasText(buf, 0, Text(cells)) && cells[0..] == cells;
    ShowsText(buf, 0, cells);
    assert forall k :: |Text(cells)| <= k < |buf| ==> buf[k] == tail[k - |Text(cells)|];
    assert WordsFrom(buf, 0, cells);
    WalkStates(buf, 0, 1, START, cells, 0);
    ListingStates(cells);
  }

  // EPLF: facts, each ended by a comma, then a tab and the name.

  /** The fact in buf[i..j]. */
  function TakeFact(fp: Entry, f: string, i: nat, base: int): Entry {
    if f == "" then fp
    else match f[0]
      case '/' => fp.(flagtrycwd := true)
      case 'r' => fp.(flagtryretr := true)
      case 's' => fp.(sizeKnown := true, size := GetLong(f[1..]))
      case 'm' => fp.(mtimetype := MTIME_LOCAL, mtime := base + GetLong(f[1..]))
      case 'i' => fp.(idFull := true, id := i + 1, idlen := |f| - 1)
      case _ => fp
  }

  /** The facts of a line, and where its name starts. */
  function TakeFacts(fp: Entry, facts: seq<string>, i: nat, base: int): Entry
    decreases |facts|
  {
    if facts == [] then fp
    else TakeFacts(TakeFact(fp, facts[0], i, base), facts[1..], i + |facts[0]| + 1, base)
  }

  function FactText(facts: seq<string>): string {
    if facts == [] then "" else facts[0] + "," + FactText(facts[1..])
  }

  predicate PlainFacts(facts: seq<string>) {
    forall x :: 0 <= x < |facts| ==> ',' !in facts[x] && '\t' !in facts[x]
  }

  function EplfLine(facts: seq<string>, name: string): string {
    "+" + FactText(facts) + "\t" + name
  }

  function Eplf(buf: string, i: nat, j: nat, fp: Entry, base: int): (r: (bool, Entry))
    requires i <= j
    requires Within(fp, buf)
    ensures Within(r.1, buf)
    decreases |buf| - j
  {
    if j >= |buf| then (false, fp)
    else if buf[j] == '\t' then (true, fp.(name := j + 1, namelen := |buf| - j - 1))
    else if buf[j] == ',' then Eplf(buf, j + 1, j + 1, TakeFact(fp, buf[i..j], i, base), base)
    else Eplf(buf, i, j + 1, fp, base)
  }

  lemma {:induction false} EplfFact(buf: string, i: nat, j: nat, e: nat, fp: Entry, base: int)
    requires i <= j <= e < |buf| && Within(fp, buf) && buf[e] == ','
    requires forall k :: j <= k < e ==> buf[k] != ',' && buf[k] != '\t'
    ensures Eplf(buf, i, j, fp, base) == Eplf(buf, e + 1, e + 1, TakeFact(fp, buf[i..e], i, base), base)
    decreases e - j
  {
    if j < e {
      EplfFact(buf, i, j + 1, e, fp, base);
    }
  }

  ghost predicate FactsStand(buf: string, i: nat, facts: seq<string>, name: string) {
    PlainFacts(facts) && HasText(buf, i, FactText(facts) + "\t" + name) && |buf| == i + |FactText(facts)| + 1 + |name|
  }

  lemma EplfName(buf: string, i: nat, name: string, fp: Entry, base: int)
    requires Within(fp, buf) && FactsStand(buf, i, [], name)
    ensures Eplf(buf, i, i, fp, base) == (true, fp.(name := |buf| - |name|, namelen := |name|))
  {
    assert ("" + "\t" + name)[0] == '\t';
  }

  lemma TakeFactWithin(buf: string, fp: Entry, f: string, i: nat, base: int)
    requires Within(fp, buf) && i + |f| <= |buf|
    ensures Within(TakeFact(fp, f, i, base), buf)
  {
  }

  lemma EplfFirst(buf: string, i: nat, facts: seq<string>, name: string, fp: Entry, base: int)
    requires Within(fp, buf) && FactsStand(buf, i, facts, name) && facts != []
    ensures var next, n := TakeFact(fp, facts[0], i, base), i + |facts[0]| + 1;
      && n <= |buf| && FactsStand(buf, n, facts[1..], name) && Within(next, buf)
      && Eplf(buf, i, i, fp, base) == Eplf(buf, n, n, next, base)
  {
    var f, e := facts[0], i + |facts[0]|;
    FactStands(buf, i, f, FactText(facts[1..]), name);
    assert FactText(facts) == f + "," + FactText(facts[1..]);
    assert forall k :: i <= k < e ==> buf[k] == f[k - i];
    TakeFactWithin(buf, fp, f, i, base);
    EplfFact(buf, i, i, e, fp, base);
  }

  lemma {:induction false} EplfFacts(buf: string, i: nat, facts: seq<string>, name: string, fp: Entry, base: int)
    requires Within(fp, buf) && FactsStand(buf, i, facts, name)
    ensures Eplf(buf, i, i, fp, base)
      == (true, TakeFacts(fp, facts, i, base).(name := |buf| - |name|, namelen := |name|))
    decreases |facts|
  {
    if facts == [] {
      EplfName(buf, i, name, fp, base);
    } else {
      EplfFirst(buf, i, facts, name, fp, base);
      EplfFacts(buf, i + |facts[0]| + 1, facts[1..], name, TakeFact(fp, facts[0], i, base), base);
    }
  }

  lemma FactStands(buf: string, i: nat, f: string, more: string, name: string)
    requires HasText(buf, i, f + "," + more + "\t" + name)
    ensures var e := i + |f|; e < |buf| && buf[i..e] == f && buf[e] == ',' && HasText(buf, e + 1, more + "\t" + name)
  {
    var text, rest := f + "," + more + "\t" + name, more + "\t" + name;
    assert text == f + "," + rest;
    forall k | 0 <= k < |f| ensures buf[i + k] == f[k] { assert text[k] == f[k]; }
    assert text[|f|] == ',';
    forall k | 0 <= k < |rest| ensures buf[i + |f| + 1 + k] == rest[k] { assert text[|f| + 1 + k] == rest[k]; }
  }

  /** An EPLF line gives back its facts and its name, whatever bytes the name has. */
  lemma EplfRoundTrip(facts: seq<string>, name: string, base: int)
    requires PlainFacts(facts)
    ensures var buf := EplfLine(facts, name);
      Eplf(buf, 1, 1, BLANK, base)
      == (true, TakeFacts(BLANK, facts, 1, base).(name := |buf| - |name|, namelen := |name|))
      && buf[|buf| - |name|..] == name
  {
    EplfFacts(EplfLine(facts, name), 1, facts, name, BLANK, base);
  }

  /** The facts of EPLF: the line names a folder to go to or a file to fetch, its size, its time
      since the epoch, its identifier, or something else. */
  datatype Fact = Cwd(more: string) | Retr(more: string) | Size(size: nat) | Time(time: nat) | Id(id: string)
    | Other(text: string) {

    function Show(): string {
      match this
      case Cwd(more) => "/" + more
      case Retr(more) => "r" + more
      case Size(n) => "s" + Decimal(n)
      case Time(n) => "m" + Decimal(n)
      case Id(id) => "i" + id
      case Other(text) => text
    }

    predicate Ok() {
      ',' !in Show() && '\t' !in Show() && (Other? && text != "" ==> text[0] !in "/rsmi")
    }
  }

  predicate AllShown(fs: seq<Fact>, facts: seq<string>) {
    |facts| == |fs| && forall k :: 0 <= k < |fs| ==> fs[k].Ok() && facts[k] == fs[k].Show()
  }

  /** The last fact of a kind. */
  function Last(fs: seq<Fact>, kind: Fact -> bool): (r: Option<Fact>)
    ensures r.Some? ==> kind(r.value)
  {
    if fs == [] then None
    else if kind(fs[|fs| - 1]) then Some(fs[|fs| - 1]) else Last(fs[..|fs| - 1], kind)
  }

  /** fp says what the facts say: where several speak of the same, the last. */
  ghost predicate Says(fp: Entry, fs: seq<Fact>, buf: string, base: int) {
    forall z {:trigger Unfold(z)} :: Unfold(z) ==>
      Within(fp, buf) && SaysFlags(fp, fs) && SaysSize(fp, fs) && SaysTime(fp, fs, base) && SaysId(fp, fs, buf)
  }

  ghost predicate SaysFlags(fp: Entry, fs: seq<Fact>) {
    && (fp.flagtrycwd <==> exists k :: 0 <= k < |fs| && fs[k].Cwd?)
    && (fp.flagtryretr <==> exists k :: 0 <= k < |fs| && fs[k].Retr?)
  }

  ghost predicate SaysSize(fp: Entry, fs: seq<Fact>) {
    match Last(fs, (f: Fact) => f.Size?)
    case Some(f) => fp.sizeKnown && fp.size == f.size
    case None => !fp.sizeKnown
  }

  ghost predicate SaysTime(fp: Entry, fs: seq<Fact>, base: int) {
    match Last(fs, (f: Fact) => f.Time?)
    case Some(f) => fp.mtimetype == MTIME_LOCAL && fp.mtime == base + f.time
    case None => fp.mtimetype == MTIME_UNKNOWN
  }

  ghost predicate SaysId(fp: Entry, fs: seq<Fact>, buf: string)
    requires Within(fp, buf)
  {
    match Last(fs, (f: Fact) => f.Id?)
    case Some(f) => fp.idFull && buf[fp.id..fp.id + fp.idlen] == f.id
    case None => !fp.idFull
  }

  /** What a fact does to what is known. */
  ghost predicate Taken(fp: Entry, f: Fact, r: Entry, i: nat, base: int, buf: string) {
    match f
    case Cwd(_) => r == fp.(flagtrycwd := true)
    case Retr(_) => r == fp.(flagtryretr := true)
    case Size(n) => r == fp.(sizeKnown := true, size := n)
    case Time(n) => r == fp.(mtimetype := MTIME_LOCAL, mtime := base + n)
    case Id(id) => r == fp.(idFull := true, id := i + 1, idlen := |id|)
      && i + 1 + |id| <= |buf| && buf[i + 1..i + 1 + |id|] == id
    case Other(_) => r == fp
  }

  lemma TakesNumber(fp: Entry, n: nat, i: nat, base: int, buf: string)
    ensures Taken(fp, Size(n), TakeFact(fp, "s" + Decimal(n), i, base), i, base, buf)
    ensures Taken(fp, Time(n), TakeFact(fp, "m" + Decimal(n), i, base), i, base, buf)
  {
    GetLongOfDecimal(n);
    assert ("s" + Decimal(n))[1..] == Decimal(n) == ("m" + Decimal(n))[1..];
  }

  lemma TakesId(fp: Entry, id: string, i: nat, base: int, buf: string)
    requires i + 1 + |id| <= |buf| && buf[i..i + 1 + |id|] == "i" + id
    ensures Taken(fp, Id(id), TakeFact(fp, "i" + id, i, base), i, base, buf)
  {
    assert buf[i + 1..i + 1 + |id|] == buf[i..i + 1 + |id|][1..] == id;
  }

  lemma TakesFact(fp: Entry, f: Fact, i: nat, base: int, buf: string)
    requires f.Ok() && i + |f.Show()| <= |buf| && buf[i..i + |f.Show()|] == f.Show()
    ensures Taken(fp, f, TakeFact(fp, f.Show(), i, base), i, base, buf)
  {
    match f
    case Size(n) => TakesNumber(fp, n, i, base, buf);
    case Time(n) => TakesNumber(fp, n, i, base, buf);
    case Id(id) => TakesId(fp, id, i, base, buf);
    case _ =>
  }

  lemma FlagsMore(fp: Entry, fs: seq<Fact>, r: Entry, i: nat, base: int, buf: string)
    requires fs != [] && SaysFlags(fp, fs[..|fs| - 1]) && Taken(fp, fs[|fs| - 1], r, i, base, buf)
    ensures SaysFlags(r, fs)
  {
    var n, init := |fs| - 1, fs[..|fs| - 1];
    assert fs[n].Cwd? || fs[n].Retr? || (r.flagtrycwd == fp.flagtrycwd && r.flagtryretr == fp.flagtryretr);
    forall k | 0 <= k < n ensures init[k] == fs[k] {}
  }

  lemma FieldsMore(fp: Entry, fs: seq<Fact>, r: Entry, i: nat, base: int, buf: string)
    requires fs != [] && Taken(fp, fs[|fs| - 1], r, i, base, buf) && Within(fp, buf)
    requires var init := fs[..|fs| - 1]; SaysSize(fp, init) && SaysTime(fp, init, base) && SaysId(fp, init, buf)
    ensures Within(r, buf) && SaysSize(r, fs) && SaysTime(r, fs, base) && SaysId(r, fs, buf)
  {
  }

  lemma SaysMore(fp: Entry, fs: seq<Fact>, r: Entry, i: nat, base: int, buf: string)
    requires fs != [] && Says(fp, fs[..|fs| - 1], buf, base) && Taken(fp, fs[|fs| - 1], r, i, base, buf)
    ensures Says(r, fs, buf, base)
  {
    assert Unfold(0);
    FieldsMore(fp, fs, r, i, base, buf);
    FlagsMore(fp, fs, r, i, base, buf);
  }

  lemma {:induction false} TakeFactsSnoc(fp: Entry, facts: seq<string>, f: string, i: nat, base: int)
    ensures TakeFacts(fp, facts + [f], i, base)
      == TakeFact(TakeFacts(fp, facts, i, base), f, i + |FactText(facts)|, base)
    decreases |facts|
  {
    if facts != [] {
      assert (facts + [f])[1..] == facts[1..] + [f];
      TakeFactsSnoc(TakeFact(fp, facts[0], i, base), facts[1..], f, i + |facts[0]| + 1, base);
    }
  }

  lemma {:induction false} FactTextJoin(a: seq<string>, b: seq<string>)
    ensures FactText(a + b) == FactText(a) + FactText(b)
    decreases |a|
  {
    if a == [] {
      assert a + b == b;
    } else {
      assert (a + b)[1..] == a[1..] + b;
      FactTextJoin(a[1..], b);
    }
  }

  /** Where the n-th fact stands in the line. */
  lemma FactPlace(facts: seq<string>, name: string, n: nat)
    requires n < |facts|
    ensures var (buf, i) := (EplfLine(facts, name), 1 + |FactText(facts[..n])|);
      i + |facts[n]| <= |buf| && buf[i..i + |facts[n]|] == facts[n]
  {
    var a, b := FactText(facts[..n]), FactText(facts[n + 1..]);
    assert facts == facts[..n] + ([facts[n]] + facts[n + 1..]);
    FactTextJoin(facts[..n], [facts[n]] + facts[n + 1..]);
    assert FactText([facts[n]] + facts[n + 1..]) == facts[n] + "," + b;
    assert EplfLine(facts, name) == ("+" + a) + facts[n] + ("," + b + "\t" + name);
  }

  lemma FactSays(fs: seq<Fact>, n: nat, fp: Entry, f: string, i: nat, base: int, buf: string)
    requires n < |fs| && fs[n].Ok() && f == fs[n].Show() && Says(fp, fs[..n], buf, base)
    requires i + |f| <= |buf| && buf[i..i + |f|] == f
    ensures Says(TakeFact(fp, f, i, base), fs[..n + 1], buf, base)
  {
    TakesFact(fp, fs[n], i, base, buf);
    assert fs[..n + 1][..n] == fs[..n];
    SaysMore(fp, fs[..n + 1], TakeFact(fp, f, i, base), i, base, buf);
  }

  lemma BlankSays(buf: string, base: int)
    ensures Says(BLANK, [], buf, base)
  {
  }

  /** The n-th fact is taken from where it stands. */
  lemma FactNext(facts: seq<string>, name: string, n: nat, base: int) returns (i: nat, fp: Entry)
    requires n < |facts|
    ensures fp == TakeFacts(BLANK, facts[..n], 1, base)
    ensures TakeFacts(BLANK, facts[..n + 1], 1, base) == TakeFact(fp, facts[n], i, base)
    ensures var buf := EplfLine(facts, name); i + |facts[n]| <= |buf| && buf[i..i + |facts[n]|] == facts[n]
  {
    i, fp := 1 + |FactText(facts[..n])|, TakeFacts(BLANK, facts[..n], 1, base);
    FactPlace(facts, name, n);
    assert facts[..n + 1] == facts[..n] + [facts[n]];
    TakeFactsSnoc(BLANK, facts[..n], facts[n], 1, base);
  }

  lemma {:induction false} FactsSay(fs: seq<Fact>, facts: seq<string>, name: string, n: nat, base: int, buf: string) returns (r: Entry)
    requires AllShown(fs, facts) && n <= |fs| && buf == EplfLine(facts, name)
    ensures r == TakeFacts(BLANK, facts[..n], 1, base) && Says(r, fs[..n], buf, base)
    decreases n
  {
    if n == 0 {
      r := BLANK;
      BlankSays(buf, base);
    } else {
      r := FactsSay(fs, facts, name, n - 1, base, buf);
      var i, fp := FactNext(facts, name, n - 1, base);
      FactSays(fs, n - 1, fp, facts[n - 1], i, base, buf);
      r := TakeFact(fp, facts[n - 1], i, base);
    }
  }

  method EplfFactAt(buf: string, i: nat, j: nat, fp0: Entry, clock: Clock, zero: Tm) returns (fp: Entry)
    requires i <= j < |buf| && buf[j] == ','
    modifies clock
    ensures clock.Base(zero) == old(clock.Base(zero))
    ensures fp == TakeFact(fp0, buf[i..j], i, clock.Base(zero))
  {
    fp := fp0;
    ghost var f := buf[i..j];
    assert i < j ==> f[1..] == buf[i + 1..j];
    match buf[i] {
      case '/' => fp := fp.(flagtrycwd := true);
      case 'r' => fp := fp.(flagtryretr := true);
      case 's' =>
        var size := GetLongOf(buf, i + 1, j - i - 1);
        fp := fp.(sizeKnown := true, size := size);
      case 'm' =>
        var t := GetLongOf(buf, i + 1, j - i - 1);
        clock.InitBase(zero);
        fp := fp.(mtimetype := MTIME_LOCAL, mtime := clock.base + t);
      case 'i' => fp := fp.(idFull := true, id := i + 1, idlen := j - i - 1);
      case _ =>
    }
  }

  method ParseEplf(buf: string, clock: Clock, zero: Tm) returns (ok: bool, fp: Entry)
    requires |buf| >= 2
    modifies clock
    ensures (ok, fp) == Eplf(buf, 1, 1, BLANK, old(clock.Base(zero))) && Within(fp, buf)
  {
    fp := BLANK;
    ghost var base := clock.Base(zero);
    var i, j := 1, 1;
    while j < |buf|
      invariant 1 <= i <= j <= |buf| && Within(fp, buf) && clock.Base(zero) == base
      invariant Eplf(buf, i, j, fp, base) == Eplf(buf, 1, 1, BLANK, base)
    {
      if buf[j] == '\t' {
        fp := fp.(name := j + 1, namelen := |buf| - j - 1);
        return true, fp;
      }
      if buf[j] == ',' {
        assert i == j ==> buf[i..j] == "";
        fp := EplfFactAt(buf, i, j, fp, clock, zero);
        i := j + 1;
      }
      j := j + 1;
    }
    ok := false;
  }

  // VMS and MSDOS listings: fields, each cut off at a delimiter that may be repeated.

  /** First index from i on that holds c, or does not, or the length. */
  function Until(buf: string, i: nat, c: char): (k: nat)
    requires i <= |buf|
    ensures i <= k <= |buf|
    decreases |buf| - i
  {
    if i < |buf| && buf[i] != c then Until(buf, i + 1, c) else i
  }

  function Past(buf: string, i: nat, c: char): (k: nat)
    requires i <= |buf|
    ensures i <= k <= |buf|
    decreases |buf| - i
  {
    if i < |buf| && buf[i] == c then Past(buf, i + 1, c) else i
  }

  lemma {:induction false} UntilIs(buf: string, i: nat, c: char, e: nat)
    requires i <= e < |buf| && buf[e] == c && forall x :: i <= x < e ==> buf[x] != c
    ensures Until(buf, i, c) == e
    decreases e - i
  {
    if i < e {
      UntilIs(buf, i + 1, c, e);
    }
  }

  lemma {:induction false} PastIs(buf: string, i: nat, c: char, n: nat)
    requires i <= n < |buf| && buf[n] != c && forall x :: i <= x < n ==> buf[x] == c
    ensures Past(buf, i, c) == n
    decreases n - i
  {
    if i < n {
      PastIs(buf, i + 1, c, n);
    }
  }

  /** A field, and where the next one starts; Short when the line ends first. */
  datatype Field = Field(word: string, next: nat) | Short

  function Cut(buf: string, i: nat, c: char): (f: Field)
    requires i < |buf|
    ensures f.Field? ==> f.next < |buf|
  {
    var e := Until(buf, i, c);
    var n := Past(buf, e, c);
    if n < |buf| then Field(buf[i..e], n) else Short
  }

  function Run(c: char, n: nat): string { seq(n, _ => c) }

  lemma CutIs(buf: string, i: nat, w: string, c: char, pad: nat, rest: string)
    requires HasText(buf, i, w + Run(c, pad) + rest) && c !in w && pad > 0 && rest != "" && rest[0] != c
    ensures i < |buf| && Cut(buf, i, c) == Field(w, i + |w| + pad) && HasText(buf, i + |w| + pad, rest)
  {
    var text, e, n := w + Run(c, pad) + rest, i + |w|, i + |w| + pad;
    forall k | i <= k < e ensures buf[k] == w[k - i] && buf[k] != c { assert text[k - i] == w[k - i]; }
    forall k | e <= k < n ensures buf[k] == c { assert text[k - i] == c; }
    forall k | 0 <= k < |rest| ensures buf[n + k] == rest[k] { assert text[|w| + pad + k] == rest[k]; }
    assert buf[n + 0] == rest[0] && buf[e] == c;
    UntilIs(buf, i, c, e);
    PastIs(buf, e, c, n);
    assert buf[i..e] == w;
  }

  method CutAt(buf: string, i: nat, c: char) returns (f: Field)
    requires i < |buf|
    ensures f == Cut(buf, i, c)
  {
    var j := i;
    while buf[j] != c
      invariant i <= j < |buf| && Until(buf, j, c) == Until(buf, i, c)
      decreases |buf| - j
    {
      j := j + 1;
      if j == |buf| {
        return Short;
      }
    }
    var e := j;
    while buf[j] == c
      invariant e <= j < |buf| && Past(buf, j, c) == Past(buf, e, c)
      decreases |buf| - j
    {
      j := j + 1;
      if j == |buf| {
        return Short;
      }
    }
    f := Field(buf[i..e], j);
  }

  /** The fields of a VMS line from its semicolon on: version, blocks, date and time. */
  function VmsStamp(buf: string, semi: nat): Stamp
    requires semi < |buf|
  {
    var version := Cut(buf, semi, ' ');
    if version.Short? then Never else VmsBlocks(buf, version.next)
  }

  function VmsBlocks(buf: string, i: nat): Stamp
    requires i < |buf|
  {
    var blocks := Cut(buf, i, ' ');
    if blocks.Short? then Never else VmsDay(buf, blocks.next)
  }

  function VmsDay(buf: string, i: nat): Stamp
    requires i < |buf|
  {
    var mday := Cut(buf, i, '-');
    if mday.Short? then Never else VmsMonth(buf, mday.next, GetLong(mday.word))
  }

  function VmsMonth(buf: string, i: nat, mday: int): Stamp
    requires i < |buf|
  {
    var month := Cut(buf, i, '-');
    if month.Short? || GetMonth(month.word) < 0 then Never
    else VmsYear(buf, month.next, GetMonth(month.word), mday)
  }

  function VmsYear(buf: string, i: nat, month: int, mday: int): Stamp
    requires i < |buf|
  {
    var year := Cut(buf, i, ' ');
    if year.Short? then Never else VmsTime(buf, year.next, GetLong(year.word), month, mday)
  }

  function VmsTime(buf: string, i: nat, year: int, month: int, mday: int): Stamp
    requires i < |buf|
  {
    var hour := Cut(buf, i, ':');
    if hour.Short? then Never else
    var e := Minutes(buf, hour.next, ':', ' ');
    if e == |buf| then Never else Moment(year, month, mday, GetLong(hour.word), GetLong(buf[hour.next..e]))
  }

  /** The minutes end at either of two characters. */
  function Minutes(buf: string, i: nat, c: char, d: char): (k: nat)
    requires i <= |buf|
    ensures i <= k <= |buf|
    decreases |buf| - i
  {
    if i < |buf| && buf[i] != c && buf[i] != d then Minutes(buf, i + 1, c, d) else i
  }

  lemma {:induction false} MinutesIs(buf: string, i: nat, w: string, c: char, d: char, rest: string)
    requires HasText(buf, i, w + rest) && c !in w && d !in w && rest != "" && (rest[0] == c || rest[0] == d)
    ensures i + |w| < |buf| && Minutes(buf, i, c, d) == i + |w| && buf[i..i + |w|] == w
    ensures HasText(buf, i + |w|, rest)
    decreases |w|
  {
    var text := w + rest;
    assert text[|w|] == rest[0];
    forall k | 0 <= k < |rest| ensures buf[i + |w| + k] == rest[k] { assert text[|w| + k] == rest[k]; }
    if w != "" {
      assert text[0] == w[0];
      assert w == [w[0]] + w[1..];
      forall k | 0 <= k < |w[1..] + rest| ensures buf[i + 1 + k] == (w[1..] + rest)[k] { assert text[1 + k] == (w[1..] + rest)[k]; }
      MinutesIs(buf, i + 1, w[1..], c, d, rest);
    }
  }

  /** A field as it is printed: a word and its delimiters. */
  datatype Piece = Piece(word: string, delim: char, pad: nat)

  /** The pieces from the k-th on, and what follows them. */
  function Tail(ps: seq<Piece>, k: nat, end: string): string
    requires k <= |ps|
    decreases |ps| - k
  {
    if k == |ps| then end else ps[k].word + Run(ps[k].delim, ps[k].pad) + Tail(ps, k + 1, end)
  }

  /** Where the k-th piece starts, if the first one starts at i. */
  function Pos(ps: seq<Piece>, i: nat, k: nat): nat
    requires k <= |ps|
  {
    if k == 0 then i else Pos(ps, i, k - 1) + |ps[k - 1].word| + ps[k - 1].pad
  }

  /** What a field starts with: its delimiter, if it is empty. */
  function Start(p: Piece): char { if p.word == "" then p.delim else p.word[0] }

  /** What follows a delimiter does not start with it. */
  ghost predicate Parted(ps: seq<Piece>, end: string) {
    && end != "" && (|ps| > 0 ==> end[0] != ps[|ps| - 1].delim)
    && (forall k :: 0 <= k < |ps| ==> ps[k].pad > 0 && ps[k].delim !in ps[k].word)
    && (forall k :: 0 < k < |ps| ==> Start(ps[k]) != ps[k - 1].delim)
  }

  /** The field w is cut off at i, and the next one starts at n. */
  ghost predicate CutsTo(buf: string, i: nat, c: char, w: string, n: nat) {
    forall z {:trigger Unfold(z)} :: Unfold(z) ==> i < |buf| && Cut(buf, i, c) == Field(w, n)
  }

  ghost predicate CutsAt(buf: string, i: nat, ps: seq<Piece>, k: nat)
    requires k < |ps|
  {
    CutsTo(buf, Pos(ps, i, k), ps[k].delim, ps[k].word, Pos(ps, i, k + 1))
  }

  lemma TailStarts(ps: seq<Piece>, k: nat, end: string)
    requires Parted(ps, end) && 0 < k <= |ps|
    ensures Tail(ps, k, end) != "" && Tail(ps, k, end)[0] != ps[k - 1].delim
  {
  }

  lemma {:induction false} CutPieces(buf: string, i: nat, ps: seq<Piece>, k: nat, end: string)
    requires Parted(ps, end) && k <= |ps| && HasText(buf, Pos(ps, i, k), Tail(ps, k, end))
    ensures forall x :: k <= x < |ps| ==> CutsAt(buf, i, ps, x)
    ensures HasText(buf, Pos(ps, i, |ps|), end)
    decreases |ps| - k
  {
    if k < |ps| {
      TailStarts(ps, k + 1, end);
      CutIs(buf, Pos(ps, i, k), ps[k].word, ps[k].delim, ps[k].pad, Tail(ps, k + 1, end));
      CutPieces(buf, i, ps, k + 1, end);
    }
  }

  /** A line of a VMS server.  The code does not mind if a number is empty or a delimiter repeated. */
  datatype Vms = Vms(name: string, version: string, blocks: string, mday: string, mon: string, month: nat,
                     year: string, hour: string, minute: string, end: char, tail: string,
                     p1: nat, p2: nat, p3: nat, p4: nat, p5: nat, p6: nat) {
    ghost predicate Ok() {
      && ';' !in name && ' ' !in version && Word(blocks)
      && p1 > 0 && p2 > 0 && p3 > 0 && p4 > 0 && p5 > 0 && p6 > 0
      && '-' !in mday && (mday != "" ==> mday[0] != ' ')
      && month < 12 && |mon| == 3 && Check(mon, MONTHS[month]) && '-' !in mon
      && ' ' !in year && (year != "" ==> year[0] != '-')
      && ':' !in hour && (hour != "" ==> hour[0] != ' ')
      && ':' !in minute && ' ' !in minute && (end == ' ' || (end == ':' && minute != ""))
    }

    function Date(): Stamp {
      Moment(GetLong(year), month, GetLong(mday), GetLong(hour), GetLong(minute))
    }

    function Pieces(): seq<Piece> {
      [Piece(";" + version, ' ', p1), Piece(blocks, ' ', p2), Piece(mday, '-', p3), Piece(mon, '-', p4),
       Piece(year, ' ', p5), Piece(hour, ':', p6)]
    }

    function Line(): string { name + Tail(Pieces(), 0, minute + ([end] + tail)) }
  }

  lemma VmsTimeIs(v: Vms, buf: string, i5: nat, i6: nat, year: int, month: int, mday: int)
    requires v.Ok() && CutsTo(buf, i5, ':', v.hour, i6)
    requires HasText(buf, i6, v.minute + ([v.end] + v.tail))
    ensures i5 < |buf| && VmsTime(buf, i5, year, month, mday) == Moment(year, month, mday, GetLong(v.hour), GetLong(v.minute))
  {
    assert Unfold(0);
    MinutesIs(buf, i6, v.minute, ':', ' ', [v.end] + v.tail);
  }

  lemma VmsSecondHalf(v: Vms, buf: string, i3: nat, i4: nat, i5: nat)
    requires v.Ok() && CutsTo(buf, i3, '-', v.mon, i4) && CutsTo(buf, i4, ' ', v.year, i5)
    ensures i3 < |buf| && i5 < |buf|
      && VmsMonth(buf, i3, GetLong(v.mday)) == VmsTime(buf, i5, GetLong(v.year), v.month, GetLong(v.mday))
  {
    assert Unfold(0);
    GetMonthFinds(v.mon, v.month, 0);
  }

  lemma VmsFirstHalf(v: Vms, buf: string, i0: nat, i1: nat, i2: nat, i3: nat, version: string)
    requires CutsTo(buf, i0, ' ', version, i1) && CutsTo(buf, i1, ' ', v.blocks, i2) && CutsTo(buf, i2, '-', v.mday, i3)
    ensures i0 < |buf| && i3 < |buf| && VmsStamp(buf, i0) == VmsMonth(buf, i3, GetLong(v.mday))
  {
    assert Unfold(0);
  }

  /** A VMS line gives back its date and time. */
  lemma VmsRoundTrip(v: Vms)
    requires v.Ok()
    ensures |v.name| < |v.Line()| && VmsStamp(v.Line(), |v.name|) == v.Date()
  {
    var ps, end := v.Pieces(), v.minute + ([v.end] + v.tail);
    var buf, i := v.Line(), |v.name|;
    assert Parted(ps, end);
    CutPieces(buf, i, ps, 0, end);
    assert CutsAt(buf, i, ps, 0) && CutsAt(buf, i, ps, 1) && CutsAt(buf, i, ps, 2);
    assert CutsAt(buf, i, ps, 3) && CutsAt(buf, i, ps, 4) && CutsAt(buf, i, ps, 5);
    VmsFirstHalf(v, buf, i, Pos(ps, i, 1), Pos(ps, i, 2), Pos(ps, i, 3), ";" + v.version);
    VmsSecondHalf(v, buf, Pos(ps, i, 3), Pos(ps, i, 4), Pos(ps, i, 5));
    VmsTimeIs(v, buf, Pos(ps, i, 5), Pos(ps, i, 6), GetLong(v.year), v.month, GetLong(v.mday));
  }

  lemma {:induction false} PastFirst(buf: string, i: nat, c: char)
    requires i <= |buf|
    ensures var n := Past(buf, i, c); (forall k :: i <= k < n ==> buf[k] == c) && (n < |buf| ==> buf[n] != c)
    ensures i < |buf| && buf[i] == c ==> i < Past(buf, i, c)
    decreases |buf| - i
  {
    if i < |buf| && buf[i] == c {
      PastFirst(buf, i + 1, c);
    }
  }

  /** A field that can be cut off, as it is printed. */
  lemma CutBack(buf: string, i: nat, c: char) returns (p: Piece, n: nat)
    requires i < |buf| && Cut(buf, i, c).Field?
    ensures Cut(buf, i, c) == Field(p.word, n) && p.delim == c && p.pad > 0 && c !in p.word
    ensures i < n < |buf| && buf[n] != c && buf[i..] == p.word + Run(c, p.pad) + buf[n..] && Start(p) == buf[i]
  {
    var e := Until(buf, i, c);
    UntilFirst(buf, i, c);
    PastFirst(buf, e, c);
    n := Past(buf, e, c);
    p := Piece(buf[i..e], c, n - e);
    assert buf[e..n] == Run(c, n - e) && buf[i..] == buf[i..e] + buf[e..n] + buf[n..];
  }

  /** The first half of a VMS line, up to the month. */
  lemma VmsFirstBack(buf: string, semi: nat) returns (ps: seq<Piece>, n: nat)
    requires semi < |buf| && buf[semi] == ';' && VmsStamp(buf, semi) != Never
    ensures |ps| == 3 && ps[0].delim == ps[1].delim == ' ' && ps[2].delim == '-' && ps[0].word != "" && ps[0].word[0] == ';'
    ensures n < |buf| && buf[n] != '-' && buf[semi..] == Tail(ps, 0, buf[n..]) && PartsOk(ps)
    ensures VmsStamp(buf, semi) == VmsMonth(buf, n, GetLong(ps[2].word))
  {
    var v, n1 := CutBack(buf, semi, ' ');
    var b, n2 := CutBack(buf, n1, ' ');
    var d, n3 := CutBack(buf, n2, '-');
    ps, n := [v, b, d], n3;
    TailThree(v, b, d, buf[semi..], buf[n1..], buf[n2..], buf[n3..]);
    PartsThree(v, b, d);
  }

  lemma TailThree(a: Piece, b: Piece, c: Piece, t0: string, t1: string, t2: string, end: string)
    requires t0 == a.word + Run(a.delim, a.pad) + t1 && t1 == b.word + Run(b.delim, b.pad) + t2
    requires t2 == c.word + Run(c.delim, c.pad) + end
    ensures Tail([a, b, c], 0, end) == t0
  {
    var ps := [a, b, c];
    assert Tail(ps, 3, end) == end && Tail(ps, 2, end) == t2 && Tail(ps, 1, end) == t1;
  }

  lemma PartsThree(a: Piece, b: Piece, c: Piece)
    requires a.pad > 0 && b.pad > 0 && c.pad > 0 && a.delim !in a.word && b.delim !in b.word && c.delim !in c.word
    requires Start(b) != a.delim && Start(c) != b.delim
    ensures PartsOk([a, b, c])
  {
  }

  ghost predicate PartsOk(ps: seq<Piece>) {
    && (forall k :: 0 <= k < |ps| ==> ps[k].pad > 0 && ps[k].delim !in ps[k].word)
    && (forall k :: 0 < k < |ps| ==> Start(ps[k]) != ps[k - 1].delim)
  }

  lemma MonthBack(w: string, from: nat)
    requires |w| == 3 && from <= 12 && FirstMonth(w, from) >= 0
    ensures from <= FirstMonth(w, from) < 12 && Check(w, MONTHS[FirstMonth(w, from)])
    decreases 12 - from
  {
    if from < 12 && !Check(w, MONTHS[from]) {
      MonthBack(w, from + 1);
    }
  }

  lemma {:induction false} MinutesFirst(buf: string, i: nat, c: char, d: char)
    requires i <= |buf|
    ensures var e := Minutes(buf, i, c, d);
      c !in buf[i..e] && d !in buf[i..e] && (e < |buf| ==> buf[e] == c || buf[e] == d)
    decreases |buf| - i
  {
    if i < |buf| && buf[i] != c && buf[i] != d {
      MinutesFirst(buf, i + 1, c, d);
      var e := Minutes(buf, i, c, d);
      assert buf[i..e] == [buf[i]] + buf[i + 1..e];
    }
  }

  /** The second half, from the month on. */
  lemma VmsSecondBack(buf: string, i: nat, mday: int) returns (ps: seq<Piece>, n: nat, e: nat)
    requires i < |buf| && buf[i] != '-' && VmsMonth(buf, i, mday) != Never
    ensures |ps| == 3 && ps[0].delim == '-' && ps[1].delim == ' ' && ps[2].delim == ':' && Start(ps[0]) == buf[i]
    ensures GetMonth(ps[0].word) >= 0 && PartsOk(ps)
    ensures n <= e < |buf| && buf[n] != ':' && buf[i..] == Tail(ps, 0, buf[n..])
    ensures ':' !in buf[n..e] && ' ' !in buf[n..e] && (buf[e] == ':' || buf[e] == ' ')
  {
    var m, n1 := CutBack(buf, i, '-');
    var y, n2 := CutBack(buf, n1, ' ');
    var h, n3 := CutBack(buf, n2, ':');
    ps, n, e := [m, y, h], n3, Minutes(buf, n3, ':', ' ');
    MinutesFirst(buf, n, ':', ' ');
    TailThree(m, y, h, buf[i..], buf[n1..], buf[n2..], buf[n3..]);
    PartsThree(m, y, h);
  }

  lemma {:induction false} TailJoin(a: seq<Piece>, b: seq<Piece>, k: nat, end: string)
    requires k <= |a|
    ensures Tail(a + b, k, end) == Tail(a, k, Tail(b, 0, end))
    decreases |a| - k
  {
    if k == |a| {
      TailSkip(a, b, 0, end);
    } else {
      TailJoin(a, b, k + 1, end);
    }
  }

  lemma {:induction false} TailSkip(a: seq<Piece>, b: seq<Piece>, k: nat, end: string)
    requires k <= |b|
    ensures Tail(a + b, |a| + k, end) == Tail(b, k, end)
    decreases |b| - k
  {
    if k < |b| {
      TailSkip(a, b, k + 1, end);
    }
  }

  /** Every accepted line with a semicolon is a VMS line as printed. */
  lemma VmsBack(buf: string, semi: nat) returns (v: Vms)
    requires semi < |buf| && buf[semi] == ';' && ';' !in buf[..semi] && VmsStamp(buf, semi) != Never
    ensures v.Ok() && v.Line() == buf && |v.name| == semi
  {
    var a, n := VmsFirstBack(buf, semi);
    var b, m, e := VmsSecondBack(buf, n, GetLong(a[2].word));
    LineBack(buf, semi, m, e);
    v := VmsOf(buf, buf[..semi], a, b, buf[semi..], buf[n..], buf[m..], buf[m..e], buf[e], buf[e + 1..]);
  }

  lemma VmsOf(buf: string, name: string, a: seq<Piece>, b: seq<Piece>, t0: string, t1: string, t2: string,
              minute: string, end: char, tail: string) returns (v: Vms)
    requires buf == name + t0 && t0 == Tail(a, 0, t1) && t1 == Tail(b, 0, t2) && t2 == minute + ([end] + tail)
    requires |a| == |b| == 3 && PartsOk(a) && PartsOk(b) && a[2].delim != Start(b[0])
    requires a[0].delim == a[1].delim == b[1].delim == ' ' && a[2].delim == b[0].delim == '-' && b[2].delim == ':'
    requires a[0].word != "" && a[0].word[0] == ';' && ';' !in name && GetMonth(b[0].word) >= 0
    requires ':' !in minute && ' ' !in minute && (end == ' ' || (end == ':' && minute != ""))
    ensures v.Ok() && v.Line() == buf && v.name == name
  {
    MonthBack(b[0].word, 0);
    v := Vms(name, a[0].word[1..], a[1].word, a[2].word, b[0].word, GetMonth(b[0].word), b[1].word, b[2].word,
             minute, end, tail, a[0].pad, a[1].pad, a[2].pad, b[0].pad, b[1].pad, b[2].pad);
    assert a[0].word == ";" + v.version;
    VmsFields(v, a, b);
    TailJoin(a, b, 0, t2);
    VmsFine(v, a, b);
  }

  lemma LineBack(buf: string, i: nat, m: nat, e: nat)
    requires i <= |buf| && m <= e < |buf|
    ensures buf[m..] == buf[m..e] + ([buf[e]] + buf[e + 1..]) && buf == buf[..i] + buf[i..]
  {
  }

  lemma VmsFine(v: Vms, a: seq<Piece>, b: seq<Piece>)
    requires |a| == |b| == 3 && PartsOk(a) && PartsOk(b) && v.Pieces() == a + b && a[2].delim != Start(b[0])
    requires ';' !in v.name && v.month < 12 && |v.mon| == 3 && Check(v.mon, MONTHS[v.month])
    requires ':' !in v.minute && ' ' !in v.minute && (v.end == ' ' || (v.end == ':' && v.minute != ""))
    ensures v.Ok()
  {
    var ps := v.Pieces();
    assert ps[0] == a[0] && ps[1] == a[1] && ps[2] == a[2] && ps[3] == b[0] && ps[4] == b[1] && ps[5] == b[2];
    WordBack(v.blocks, ' ');
  }

  lemma WordBack(w: string, c: char)
    ensures c !in w <==> forall i :: 0 <= i < |w| ==> w[i] != c
  {
  }

  lemma VmsFields(v: Vms, a: seq<Piece>, b: seq<Piece>)
    requires |a| == |b| == 3 && a[0].word == ";" + v.version && a[1].word == v.blocks && a[2].word == v.mday
    requires b[0].word == v.mon && b[1].word == v.year && b[2].word == v.hour
    requires a[0].delim == a[1].delim == b[1].delim == ' ' && a[2].delim == b[0].delim == '-' && b[2].delim == ':'
    requires a[0].pad == v.p1 && a[1].pad == v.p2 && a[2].pad == v.p3 && b[0].pad == v.p4 && b[1].pad == v.p5 && b[2].pad == v.p6
    ensures v.Pieces() == a + b
  {
  }

  /** What an MSDOS line says: when, how big unless it is a directory, and where the name starts. */
  datatype DosLine = DosLine(stamp: Stamp, dir: bool, size: int, name: nat) | NotDos

  function DosMonth(buf: string): (r: DosLine)
    requires buf != ""
    ensures r.DosLine? ==> r.name <= |buf|
  {
    var month := Cut(buf, 0, '-');
    if month.Short? then NotDos else DosDay(buf, month.next, GetLong(month.word) - 1)
  }

  function DosDay(buf: string, i: nat, month: int): (r: DosLine)
    requires i < |buf|
    ensures r.DosLine? ==> r.name <= |buf|
  {
    var mday := Cut(buf, i, '-');
    if mday.Short? then NotDos else DosYear(buf, mday.next, month, GetLong(mday.word))
  }

  /** Years have two digits; 49 is 2049 and 50 is 1950.  What is no number can stay below 1000
      and get 1900 more. */
  function FullYear(year: int): (r: int)
    ensures 0 <= year < 100 ==> 1950 <= r < 2050 && r % 100 == year
    ensures 1000 <= year ==> r == year
  {
    var y := if year < 50 then year + 2000 else year;
    if y < 1000 then y + 1900 else y
  }

  function DosYear(buf: string, i: nat, month: int, mday: int): (r: DosLine)
    requires i < |buf|
    ensures r.DosLine? ==> r.name <= |buf|
  {
    var year := Cut(buf, i, ' ');
    if year.Short? then NotDos else DosHour(buf, year.next, FullYear(GetLong(year.word)), month, mday)
  }

  function DosHour(buf: string, i: nat, year: int, month: int, mday: int): (r: DosLine)
    requires i < |buf|
    ensures r.DosLine? ==> r.name <= |buf|
  {
    var hour := Cut(buf, i, ':');
    if hour.Short? then NotDos else
    var e := Minutes(buf, hour.next, 'A', 'P');
    if e == |buf| then NotDos else
    DosHalf(buf, e, Moment(year, month, mday, GetLong(hour.word), GetLong(buf[hour.next..e])))
  }

  /** AM or PM: twelve is zero, and P adds twelve. */
  function DosHalf(buf: string, e: nat, at: Stamp): (r: DosLine)
    requires e < |buf| && at.Moment?
    ensures r.DosLine? ==> r.name <= |buf|
  {
    match at
    case Moment(year, month, mday, hour, minute) =>
      var h := if hour == 12 then 0 else hour;
      var j := if buf[e] == 'A' then e + 1 else e;
      if j == |buf| then NotDos else
      var h1 := if buf[j] == 'P' then h + 12 else h;
      var j1 := if buf[j] == 'P' then j + 1 else j;
      if j1 == |buf| then NotDos else
      var j2 := if buf[j1] == 'M' then j1 + 1 else j1;
      if j2 == |buf| then NotDos else DosName(buf, j2, Moment(year, month, mday, h1, minute))
  }

  function DosName(buf: string, j: nat, at: Stamp): (r: DosLine)
    requires j < |buf|
    ensures r.DosLine? ==> r.name <= |buf|
  {
    var i := Past(buf, j, ' ');
    if i == |buf| then NotDos else
    var what := Cut(buf, i, ' ');
    if what.Short? then NotDos
    else DosLine(at, buf[i] == '<', if buf[i] == '<' then 0 else GetLong(what.word), what.next)
  }

  /** A line as MSDOS servers print it; `what` is a size or <DIR>.  The code does not mind if a
      number is empty, a delimiter repeated, or the M left out. */
  datatype Dos = Dos(month: string, mday: string, year: string, hour: string, minute: string, marks: string,
                     what: string, name: string, p1: nat, p2: nat, p3: nat, p4: nat, p5: nat, p6: nat) {
    ghost predicate Ok() {
      && p1 > 0 && p2 > 0 && p3 > 0 && p4 > 0 && p6 > 0
      && '-' !in month && mday != "" && '-' !in mday && mday[0] != '-'
      && ' ' !in year && (year != "" ==> year[0] != '-')
      && ':' !in hour && (hour != "" ==> hour[0] != ' ')
      && 'A' !in minute && 'P' !in minute && (minute != "" ==> minute[0] != ':')
      && marks in ["A", "AM", "P", "PM", "AP", "APM"] && Ended(marks, (Spaces(p5) + what + " ")[0])
      && Word(what) && name != "" && name[0] != ' '
    }

    function Pieces(): seq<Piece> {
      [Piece(month, '-', p1), Piece(mday, '-', p2), Piece(year, ' ', p3), Piece(hour, ':', p4)]
    }

    function Rest(): string { Run(' ', p5) + (what + Run(' ', p6) + name) }

    function Line(): string { Tail(Pieces(), 0, minute + (marks + Rest())) }

    /** Twelve o'clock AM is hour zero, and PM adds twelve to all but twelve. */
    function Hour(): int {
      (if GetLong(hour) == 12 then 0 else GetLong(hour)) + if 'P' in marks then 12 else 0
    }

    function Date(): Stamp {
      Moment(FullYear(GetLong(year)), GetLong(month) - 1, GetLong(mday), Hour(), GetLong(minute))
    }

    function Reads(len: int): DosLine
      requires what != "" && |name| <= len
    {
      DosLine(Date(), what[0] == '<', if what[0] == '<' then 0 else GetLong(what), len - |name|)
    }
  }

  /** The character x after the marks does not prolong them. */
  predicate Ended(marks: string, x: char) {
    (marks == "A" ==> x != 'P' && x != 'M') && (marks == "P" || marks == "AP" ==> x != 'M')
  }

  /** HasText, to the end of the line; a mention of Unfold unfolds it. */
  ghost predicate Ends(buf: string, i: nat, text: string) {
    forall z {:trigger Unfold(z)} :: Unfold(z) ==> HasText(buf, i, text) && |buf| == i + |text|
  }

  lemma EndsLater(buf: string, i: nat, w: string, rest: string)
    requires Ends(buf, i, w + rest)
    ensures Ends(buf, i + |w|, rest)
    ensures i + |w| + |rest| == |buf| && buf[i..i + |w|] == w
  {
    assert Unfold(0);
    var text := w + rest;
    forall k | 0 <= k < |w| ensures buf[i + k] == w[k] { assert text[k] == w[k]; }
    forall k | 0 <= k < |rest| ensures buf[i + |w| + k] == rest[k] { assert text[|w| + k] == rest[k]; }
  }

  lemma DosWhatIs(buf: string, i: nat, what: string, p3: nat, name: string)
    requires Word(what) && name != "" && name[0] != ' ' && p3 > 0
    requires Ends(buf, i, what + Run(' ', p3) + name)
    ensures i < |buf| && buf[i] == what[0] && |name| <= |buf|
    ensures Cut(buf, i, ' ') == Field(what, |buf| - |name|)
  {
    assert Unfold(0);
    var text := what + Run(' ', p3) + name;
    assert text[0] == what[0] && buf[i + 0] == text[0];
    CutIs(buf, i, what, ' ', p3, name);
  }

  lemma DosNameIs(buf: string, j: nat, p2: nat, what: string, p3: nat, name: string, at: Stamp)
    requires Word(what) && name != "" && name[0] != ' ' && p3 > 0
    requires Ends(buf, j, Run(' ', p2) + (what + Run(' ', p3) + name))
    ensures j < |buf| && |name| <= |buf| && buf[|buf| - |name|..] == name
    ensures DosName(buf, j, at)
      == DosLine(at, what[0] == '<', if what[0] == '<' then 0 else GetLong(what), |buf| - |name|)
  {
    var rest, i := what + Run(' ', p3) + name, j + p2;
    EndsLater(buf, j, Run(' ', p2), rest);
    DosWhatIs(buf, i, what, p3, name);
    assert forall k :: j <= k < i ==> buf[k] == buf[j..i][k - j] == ' ';
    PastIs(buf, j, ' ', i);
    EndsLater(buf, i, what + Run(' ', p3), name);
    assert name + "" == name;
    EndsLater(buf, |buf| - |name|, name, "");
  }

  /** The time with the hour that the marks make of it. */
  function Marked(at: Stamp, marks: string): Stamp
    requires at.Moment?
  {
    match at
    case Moment(y, m, d, hour, minute) =>
      Moment(y, m, d, (if hour == 12 then 0 else hour) + if 'P' in marks then 12 else 0, minute)
  }

  lemma DosHalfIs(buf: string, e: nat, marks: string, rest: string, at: Stamp)
    requires marks in ["A", "AM", "P", "PM", "AP", "APM"] && rest != "" && Ended(marks, rest[0])
    requires Ends(buf, e, marks + rest) && at.Moment?
    ensures e + |marks| < |buf| && Ends(buf, e + |marks|, rest)
    ensures DosHalf(buf, e, at) == DosName(buf, e + |marks|, Marked(at, marks))
  {
    EndsLater(buf, e, marks, rest);
    EndsLater(buf, e + |marks|, [rest[0]], rest[1..]) by {
      assert [rest[0]] + rest[1..] == rest;
    }
    assert buf[e + |marks|] == buf[e + |marks|..e + |marks| + 1][0] == rest[0];
    assert forall k :: 0 <= k < |marks| ==> buf[e + k] == buf[e..e + |marks|][k] == marks[k];
    assert buf[e + 0] == marks[0] && (|marks| > 1 ==> buf[e + 1] == marks[1]) && (|marks| > 2 ==> buf[e + 2] == marks[2]);
  }

  /** The results of the stages; a mention of Unfold unfolds them. */
  ghost predicate HalfGives(buf: string, e: nat, at: Stamp, r: DosLine) {
    forall z {:trigger Unfold(z)} :: Unfold(z) ==> e < |buf| && at.Moment? && DosHalf(buf, e, at) == r
  }

  ghost predicate HourGives(buf: string, i: nat, year: int, month: int, mday: int, r: DosLine) {
    forall z {:trigger Unfold(z)} :: Unfold(z) ==> i < |buf| && DosHour(buf, i, year, month, mday) == r
  }

  ghost predicate MonthGives(buf: string, r: DosLine) {
    forall z {:trigger Unfold(z)} :: Unfold(z) ==> buf != "" && DosMonth(buf) == r
  }

  lemma MonthUnfolds(buf: string, r: DosLine)
    requires MonthGives(buf, r)
    ensures buf != "" && DosMonth(buf) == r
  {
    assert Unfold(0);
  }

  lemma DosHourIs(buf: string, i3: nat, i4: nat, hour: string, minute: string, rest: string,
                  year: int, month: int, mday: int, r: DosLine)
    requires CutsTo(buf, i3, ':', hour, i4) && Ends(buf, i4, minute + rest)
    requires 'A' !in minute && 'P' !in minute && rest != "" && (rest[0] == 'A' || rest[0] == 'P')
    requires HalfGives(buf, i4 + |minute|, Moment(year, month, mday, GetLong(hour), GetLong(minute)), r)
    ensures HourGives(buf, i3, year, month, mday, r)
  {
    EndsLater(buf, i4, minute, rest);
    assert Unfold(0);
    MinutesIs(buf, i4, minute, 'A', 'P', rest);
  }

  lemma DosFirstHalf(d: Dos, buf: string, i1: nat, i2: nat, i3: nat, r: DosLine)
    requires CutsTo(buf, 0, '-', d.month, i1) && CutsTo(buf, i1, '-', d.mday, i2) && CutsTo(buf, i2, ' ', d.year, i3)
    requires HourGives(buf, i3, FullYear(GetLong(d.year)), GetLong(d.month) - 1, GetLong(d.mday), r)
    ensures MonthGives(buf, r)
  {
    assert Unfold(0);
  }

  lemma {:induction false} TailLength(ps: seq<Piece>, i: nat, k: nat, end: string)
    requires k <= |ps|
    ensures Pos(ps, i, k) + |Tail(ps, k, end)| == Pos(ps, i, |ps|) + |end|
    decreases |ps| - k
  {
    if k < |ps| {
      TailLength(ps, i, k + 1, end);
    }
  }

  /** The four fields with repeated delimiters of an MSDOS line, and what comes after. */
  lemma DosCuts(d: Dos, i: seq<nat>)
    requires d.Ok() && |i| == 5 && forall x :: 0 <= x < 5 ==> i[x] == Pos(d.Pieces(), 0, x)
    ensures var buf := d.Line();
      && CutsTo(buf, 0, '-', d.month, i[1]) && CutsTo(buf, i[1], '-', d.mday, i[2])
      && CutsTo(buf, i[2], ' ', d.year, i[3]) && CutsTo(buf, i[3], ':', d.hour, i[4])
      && Ends(buf, i[4], d.minute + (d.marks + d.Rest()))
  {
    var ps, end, buf := d.Pieces(), d.minute + (d.marks + d.Rest()), d.Line();
    assert Parted(ps, end);
    CutPieces(buf, 0, ps, 0, end);
    TailLength(ps, 0, 0, end);
    assert CutsAt(buf, 0, ps, 0) && CutsAt(buf, 0, ps, 1) && CutsAt(buf, 0, ps, 2) && CutsAt(buf, 0, ps, 3);
  }

  lemma DosBack(d: Dos, buf: string, e: nat) returns (r: DosLine)
    requires d.Ok() && Ends(buf, e, (d.marks + d.Rest()))
    ensures |d.name| <= |buf| && buf[|buf| - |d.name|..] == d.name && r == d.Reads(|buf|)
    ensures HalfGives(buf, e,
      Moment(FullYear(GetLong(d.year)), GetLong(d.month) - 1, GetLong(d.mday), GetLong(d.hour), GetLong(d.minute)), r)
  {
    DosHalfIs(buf, e, d.marks, d.Rest(), DosPlain(d));
    r := DosNamed(d, buf, e + |d.marks|, d.Rest());
  }

  /** The date with the hour as it is printed. */
  function DosPlain(d: Dos): Stamp {
    Moment(FullYear(GetLong(d.year)), GetLong(d.month) - 1, GetLong(d.mday), GetLong(d.hour), GetLong(d.minute))
  }

  lemma DosNamed(d: Dos, buf: string, j: nat, rest: string) returns (r: DosLine)
    requires d.Ok() && rest == d.Rest() && Ends(buf, j, rest)
    ensures j < |buf| && r == DosName(buf, j, d.Date())
    ensures |d.name| <= |buf| && buf[|buf| - |d.name|..] == d.name && r == d.Reads(|buf|)
  {
    DosNameIs(buf, j, d.p5, d.what, d.p6, d.name, d.Date());
    r := DosName(buf, j, d.Date());
  }

  /** From the hour on. */
  lemma DosSecondHalf(d: Dos, buf: string, i3: nat, i4: nat) returns (r: DosLine)
    requires d.Ok() && CutsTo(buf, i3, ':', d.hour, i4) && Ends(buf, i4, d.minute + (d.marks + d.Rest()))
    ensures |d.name| <= |buf| && buf[|buf| - |d.name|..] == d.name && r == d.Reads(|buf|)
    ensures HourGives(buf, i3, FullYear(GetLong(d.year)), GetLong(d.month) - 1, GetLong(d.mday), r)
  {
    EndsLater(buf, i4, d.minute, (d.marks + d.Rest()));
    r := DosBack(d, buf, i4 + |d.minute|);
    DosHourIs(buf, i3, i4, d.hour, d.minute, (d.marks + d.Rest()), FullYear(GetLong(d.year)), GetLong(d.month) - 1,
              GetLong(d.mday), r);
  }

  lemma DosGives(d: Dos, buf: string, i1: nat, i2: nat, i3: nat, i4: nat) returns (r: DosLine)
    requires d.Ok()
    requires CutsTo(buf, 0, '-', d.month, i1) && CutsTo(buf, i1, '-', d.mday, i2)
    requires CutsTo(buf, i2, ' ', d.year, i3) && CutsTo(buf, i3, ':', d.hour, i4)
    requires Ends(buf, i4, d.minute + (d.marks + d.Rest()))
    ensures |d.name| <= |buf| && buf[|buf| - |d.name|..] == d.name && r == d.Reads(|buf|) && MonthGives(buf, r)
  {
    r := DosSecondHalf(d, buf, i3, i4);
    DosFirstHalf(d, buf, i1, i2, i3, r);
  }

  /** An MSDOS line gives back its name, its date and time, and its size or that it is a directory. */
  lemma DosRoundTrip(d: Dos)
    requires d.Ok()
    ensures var buf := d.Line();
      && buf != "" && |d.name| <= |buf| && buf[|buf| - |d.name|..] == d.name
      && DosMonth(buf) == d.Reads(|buf|)
  {
    var ps := d.Pieces();
    var i := [Pos(ps, 0, 0), Pos(ps, 0, 1), Pos(ps, 0, 2), Pos(ps, 0, 3), Pos(ps, 0, 4)];
    DosCuts(d, i);
    var r := DosGives(d, d.Line(), i[1], i[2], i[3], i[4]);
    MonthUnfolds(d.Line(), r);
  }

  /** The marks at e, and where the spaces before the size start. */
  lemma MarksBack(buf: string, e: nat, at: Stamp) returns (marks: string, j: nat)
    requires e < |buf| && (buf[e] == 'A' || buf[e] == 'P') && at.Moment? && DosHalf(buf, e, at).DosLine?
    ensures marks in ["A", "AM", "P", "PM", "AP", "APM"] && e < j < |buf| && buf[e..j] == marks && Ended(marks, buf[j])
    ensures DosName(buf, j, Marked(at, marks)).DosLine?
  {
    j := if buf[e] == 'A' then e + 1 else e;
    j := if buf[j] == 'P' then j + 1 else j;
    j := if buf[j] == 'M' then j + 1 else j;
    marks := buf[e..j];
    MarksAre(buf, e, j);
  }

  lemma MarksAre(buf: string, e: nat, j: nat)
    requires e < j <= |buf| && j <= e + 3
    ensures j == e + 1 ==> buf[e..j] == [buf[e]]
    ensures j == e + 2 ==> buf[e..j] == [buf[e], buf[e + 1]]
    ensures j == e + 3 ==> buf[e..j] == [buf[e], buf[e + 1], buf[e + 2]]
  {
  }

  lemma DosNameBack(buf: string, j: nat, at: Stamp) returns (p5: nat, what: string, p6: nat, name: string)
    requires j < |buf| && DosName(buf, j, at).DosLine?
    ensures Word(what) && p6 > 0 && name != "" && name[0] != ' ' && buf[j] == (Spaces(p5) + what + " ")[0]
    ensures buf[j..] == Run(' ', p5) + (what + Run(' ', p6) + name)
  {
    var i := Past(buf, j, ' ');
    PastFirst(buf, j, ' ');
    var w, n := CutBack(buf, i, ' ');
    p5, what, p6, name := i - j, w.word, w.pad, buf[n..];
    assert buf[j..i] == Run(' ', p5) == Spaces(p5) && buf[j..] == buf[j..i] + buf[i..];
    assert what != "" by { assert Start(w) != ' '; }
    assert buf[j] == if p5 > 0 then ' ' else what[0];
  }

  /** The stages accept; a mention of Unfold unfolds them. */
  ghost predicate DayOk(buf: string, i: nat, month: int) {
    forall z {:trigger Unfold(z)} :: Unfold(z) ==> i < |buf| && DosDay(buf, i, month).DosLine?
  }

  ghost predicate YearOk(buf: string, i: nat, month: int, mday: int) {
    forall z {:trigger Unfold(z)} :: Unfold(z) ==> i < |buf| && DosYear(buf, i, month, mday).DosLine?
  }

  ghost predicate HourOk(buf: string, i: nat, year: int, month: int, mday: int) {
    forall z {:trigger Unfold(z)} :: Unfold(z) ==> i < |buf| && DosHour(buf, i, year, month, mday).DosLine?
  }

  /** The date. */
  lemma DosDateBack(buf: string) returns (ps: seq<Piece>, n: nat, year: int, month: int, mday: int)
    requires buf != "" && DosMonth(buf).DosLine?
    ensures |ps| == 3 && ps[0].delim == ps[1].delim == '-' && ps[2].delim == ' ' && PartsOk(ps)
    ensures n < |buf| && buf[n] != ' ' && buf == Tail(ps, 0, buf[n..]) && HourOk(buf, n, year, month, mday)
  {
    DosMonthCuts(buf);
    var m, n1 := CutWhole(buf, '-');
    var d, n2 := DosDayBack(buf, n1, GetLong(m.word) - 1);
    var y, n3 := DosYearBack(buf, n2, GetLong(m.word) - 1, GetLong(d.word));
    ps, n, year, month, mday := [m, d, y], n3, FullYear(GetLong(y.word)), GetLong(m.word) - 1, GetLong(d.word);
    TailThree(m, d, y, buf, buf[n1..], buf[n2..], buf[n3..]);
    PartsThree(m, d, y);
  }

  lemma DosMonthCuts(buf: string)
    requires buf != "" && DosMonth(buf).DosLine?
    ensures Cut(buf, 0, '-').Field? && DayOk(buf, Cut(buf, 0, '-').next, GetLong(Cut(buf, 0, '-').word) - 1)
  {
  }

  lemma DosDayBack(buf: string, i: nat, month: int) returns (d: Piece, n: nat)
    requires i < |buf| && DayOk(buf, i, month)
    ensures d.delim == '-' && d.pad > 0 && '-' !in d.word && Start(d) == buf[i] && i < n < |buf| && buf[n] != '-'
    ensures buf[i..] == d.word + Run('-', d.pad) + buf[n..] && YearOk(buf, n, month, GetLong(d.word))
  {
    assert Unfold(0);
    d, n := CutBack(buf, i, '-');
  }

  lemma DosYearBack(buf: string, i: nat, month: int, mday: int) returns (y: Piece, n: nat)
    requires i < |buf| && YearOk(buf, i, month, mday)
    ensures y.delim == ' ' && y.pad > 0 && ' ' !in y.word && Start(y) == buf[i] && i < n < |buf| && buf[n] != ' '
    ensures buf[i..] == y.word + Run(' ', y.pad) + buf[n..] && HourOk(buf, n, FullYear(GetLong(y.word)), month, mday)
  {
    assert Unfold(0);
    y, n := CutBack(buf, i, ' ');
  }

  lemma CutWhole(buf: string, c: char) returns (p: Piece, n: nat)
    requires buf != "" && Cut(buf, 0, c).Field?
    ensures Cut(buf, 0, c) == Field(p.word, n) && p.delim == c && p.pad > 0 && c !in p.word
    ensures n < |buf| && buf[n] != c && buf == p.word + Run(c, p.pad) + buf[n..]
  {
    p, n := CutBack(buf, 0, c);
    assert buf[0..] == buf;
  }

  /** The hour and the minutes, and where the marks start. */
  lemma DosHourBack(buf: string, i: nat, year: int, month: int, mday: int) returns (h: Piece, n: nat, e: nat, at: Stamp)
    requires i < |buf| && HourOk(buf, i, year, month, mday)
    ensures h.delim == ':' && PartsOk([h]) && Start(h) == buf[i] && n <= e < |buf| && buf[n] != ':'
    ensures buf[i..] == Tail([h], 0, buf[n..])
    ensures 'A' !in buf[n..e] && 'P' !in buf[n..e] && (buf[e] == 'A' || buf[e] == 'P')
    ensures at.Moment? && DosHalf(buf, e, at).DosLine?
  {
    assert Unfold(0);
    h, n := CutBack(buf, i, ':');
    e := Minutes(buf, n, 'A', 'P');
    MinutesFirst(buf, n, 'A', 'P');
    at := Moment(year, month, mday, GetLong(h.word), GetLong(buf[n..e]));
    assert Tail([h], 1, buf[n..]) == buf[n..];
  }

  /** Every accepted line of this format is an MSDOS line as printed. */
  lemma DosLineBack(buf: string) returns (d: Dos)
    requires buf != "" && DosMonth(buf).DosLine?
    ensures d.Ok() && d.Line() == buf
  {
    var ps, i, year, month, mday := DosDateBack(buf);
    var h, n, e, at := DosHourBack(buf, i, year, month, mday);
    var marks, j := MarksBack(buf, e, at);
    var p5, what, p6, name := DosNameBack(buf, j, Marked(at, marks));
    ThreeParts(buf, n, e, j);
    d := DosOf(buf, ps, h, buf[i..], buf[n..], buf[n..e], marks, p5, what, p6, name, buf[j..]);
  }

  lemma ThreeParts(buf: string, n: nat, e: nat, j: nat)
    requires n <= e < j <= |buf|
    ensures buf[n..] == buf[n..e] + (buf[e..j] + buf[j..])
  {
  }

  lemma DosOf(buf: string, ps: seq<Piece>, h: Piece, t1: string, t2: string, minute: string, marks: string,
              p5: nat, what: string, p6: nat, name: string, rest: string) returns (d: Dos)
    requires |ps| == 3 && ps[0].delim == ps[1].delim == '-' && ps[2].delim == ' ' && PartsOk(ps)
    requires h.delim == ':' && PartsOk([h]) && Start(h) != ' '
    requires buf == Tail(ps, 0, t1) && t1 == Tail([h], 0, t2)
    requires t2 == minute + (marks + rest) && rest == Run(' ', p5) + (what + Run(' ', p6) + name)
    requires 'A' !in minute && 'P' !in minute && t2 != "" && t2[0] != ':'
    requires marks in ["A", "AM", "P", "PM", "AP", "APM"] && Ended(marks, (Spaces(p5) + what + " ")[0])
    requires Word(what) && p6 > 0 && name != "" && name[0] != ' '
    ensures d.Ok() && d.Line() == buf
  {
    d := Dos(ps[0].word, ps[1].word, ps[2].word, h.word, minute, marks, what, name,
             ps[0].pad, ps[1].pad, ps[2].pad, h.pad, p5, p6);
    assert d.Pieces() == ps + [h];
    TailJoin(ps, [h], 0, t2);
    assert [h][0] == h && Start(ps[1]) != '-' && Start(ps[2]) != '-';
  }

  method MinutesAt(buf: string, i: nat, c: char, d: char) returns (e: nat)
    requires i < |buf|
    ensures e == Minutes(buf, i, c, d)
  {
    e := i;
    while e < |buf| && buf[e] != c && buf[e] != d
      invariant i <= e <= |buf| && Minutes(buf, e, c, d) == Minutes(buf, i, c, d)
    {
      e := e + 1;
    }
  }

  method WholeYear(year: int) returns (y: int)
    ensures y == FullYear(year)
  {
    y := year;
    if y < 50 { y := y + 2000; }
    if y < 1000 { y := y + 1900; }
  }

  /** The fields of an MSDOS line. */
  method DosFields(buf: string) returns (r: DosLine)
    requires buf != ""
    ensures r == DosMonth(buf)
  {
    var month := CutAt(buf, 0, '-');
    if month.Short? { return NotDos; }
    var mday := CutAt(buf, month.next, '-');
    if mday.Short? { return NotDos; }
    var year := CutAt(buf, mday.next, ' ');
    if year.Short? { return NotDos; }
    var y := WholeYear(GetLong(year.word));
    r := DosHourAt(buf, year.next, y, GetLong(month.word) - 1, GetLong(mday.word));
  }

  method DosHourAt(buf: string, i: nat, year: int, month: int, mday: int) returns (r: DosLine)
    requires i < |buf|
    ensures r == DosHour(buf, i, year, month, mday)
  {
    var f := CutAt(buf, i, ':');
    if f.Short? { return NotDos; }
    var j := MinutesAt(buf, f.next, 'A', 'P');
    if j == |buf| { return NotDos; }
    r := DosHalfAt(buf, j, year, month, mday, GetLong(f.word), GetLong(buf[f.next..j]));
  }

  method DosHalfAt(buf: string, e: nat, year: int, month: int, mday: int, hour0: int, minute: int) returns (r: DosLine)
    requires e < |buf|
    ensures r == DosHalf(buf, e, Moment(year, month, mday, hour0, minute))
  {
    var j, hour := e, hour0;
    if hour == 12 { hour := 0; }
    if buf[j] == 'A' {
      j := j + 1;
      if j == |buf| { return NotDos; }
    }
    if buf[j] == 'P' {
      hour := hour + 12;
      j := j + 1;
      if j == |buf| { return NotDos; }
    }
    if buf[j] == 'M' {
      j := j + 1;
      if j == |buf| { return NotDos; }
    }
    r := DosNameAt(buf, j, Moment(year, month, mday, hour, minute));
  }

  method DosNameAt(buf: string, j0: nat, at: Stamp) returns (r: DosLine)
    requires j0 < |buf|
    ensures r == DosName(buf, j0, at)
  {
    var j := j0;
    while buf[j] == ' '
      invariant j0 <= j < |buf| && Past(buf, j, ' ') == Past(buf, j0, ' ')
      decreases |buf| - j
    {
      j := j + 1;
      if j == |buf| { return NotDos; }
    }
    var what := CutAt(buf, j, ' ');
    if what.Short? { return NotDos; }
    r := DosLine(at, buf[j] == '<', if buf[j] == '<' then 0 else GetLong(what.word), what.next);
  }

  ghost predicate DosEntry(buf: string, fp: Entry, base: int)
    requires buf != "" && DosMonth(buf).DosLine? && Within(fp, buf)
  {
    var r := DosMonth(buf);
    && Name(fp, buf) == buf[r.name..] && fp.flagtrycwd == r.dir && fp.flagtryretr == !r.dir
    && fp.sizeKnown == !r.dir && (!r.dir ==> fp.size == r.size) && !fp.idFull
    && fp.mtimetype == TypeOf(r.stamp) && fp.mtime == TimeOf(r.stamp, base, 0, 0)
  }

  method ParseDos(buf: string, clock: Clock, zero: Tm) returns (ok: bool, fp: Entry)
    requires buf != ""
    modifies clock
    ensures Within(fp, buf)
    ensures ok <==> DosMonth(buf).DosLine?
    ensures ok ==> DosEntry(buf, fp, clock.base)
  {
    fp := BLANK;
    var r := DosFields(buf);
    if r.NotDos? {
      return false, fp;
    }
    clock.InitBase(zero);
    if r.dir {
      fp := fp.(flagtrycwd := true);
    } else {
      fp := fp.(size := r.size, sizeKnown := true, flagtryretr := true);
    }
    fp := fp.(name := r.name, namelen := |buf| - r.name, mtimetype := TypeOf(r.stamp),
              mtime := TimeOf(r.stamp, clock.base, 0, 0));
    ok := true;
  }

  /** Where a VMS file name ends: at the semicolon, or before .DIR and it. */
  predicate DotDir(buf: string, semi: nat)
    requires semi <= |buf|
  {
    semi > 4 && buf[semi - 4] == '.' && buf[semi - 3] == 'D' && buf[semi - 2] == 'I' && buf[semi - 1] == 'R'
  }

  method VmsFieldsAt(buf: string, semi: nat) returns (r: Stamp)
    requires semi < |buf|
    ensures r == VmsStamp(buf, semi)
  {
    var version := CutAt(buf, semi, ' ');
    if version.Short? { return Never; }
    var blocks := CutAt(buf, version.next, ' ');
    if blocks.Short? { return Never; }
    var mday := CutAt(buf, blocks.next, '-');
    if mday.Short? { return Never; }
    var month := CutAt(buf, mday.next, '-');
    if month.Short? || GetMonth(month.word) < 0 { return Never; }
    r := VmsTimeFields(buf, month.next, GetMonth(month.word), GetLong(mday.word));
  }

  method VmsTimeFields(buf: string, i: nat, month: int, mday: int) returns (r: Stamp)
    requires i < |buf|
    ensures r == VmsYear(buf, i, month, mday)
  {
    var year := CutAt(buf, i, ' ');
    if year.Short? { return Never; }
    var hour := CutAt(buf, year.next, ':');
    if hour.Short? { return Never; }
    var e := MinutesAt(buf, hour.next, ':', ' ');
    if e == |buf| { return Never; }
    r := Moment(GetLong(year.word), month, mday, GetLong(hour.word), GetLong(buf[hour.next..e]));
  }

  ghost predicate VmsEntry(buf: string, semi: nat, fp: Entry, base: int)
    requires semi < |buf| && Within(fp, buf)
  {
    var stamp := VmsStamp(buf, semi);
    && Name(fp, buf) == buf[..if DotDir(buf, semi) then semi - 4 else semi]
    && fp.flagtrycwd == DotDir(buf, semi) && fp.flagtryretr == !DotDir(buf, semi)
    && !fp.sizeKnown && !fp.idFull
    && fp.mtimetype == TypeOf(stamp) && fp.mtime == TimeOf(stamp, base, 0, 0)
  }

  method ParseVms(buf: string, semi: nat, clock: Clock, zero: Tm) returns (ok: bool, fp: Entry)
    requires semi < |buf|
    modifies clock
    ensures Within(fp, buf)
    ensures ok <==> VmsStamp(buf, semi) != Never
    ensures ok ==> VmsEntry(buf, semi, fp, clock.base)
  {
    fp := BLANK.(name := 0, namelen := semi);
    if DotDir(buf, semi) {
      fp := fp.(namelen := semi - 4, flagtrycwd := true);
    }
    if !fp.flagtrycwd {
      fp := fp.(flagtryretr := true);
    }
    var stamp := VmsFieldsAt(buf, semi);
    if stamp.Never? {
      return false, fp;
    }
    clock.InitBase(zero);
    fp := fp.(mtimetype := TypeOf(stamp), mtime := TimeOf(stamp, clock.base, 0, 0));
    ok := true;
  }

  /** What follows a line's first semicolon is accepted exactly when the line is a VMS line, and
      a line of the last format exactly when it is an MSDOS line. */
  lemma AcceptedExactly(buf: string)
    requires buf != ""
    ensures var semi := Until(buf, 0, ';');
      semi < |buf| ==> (VmsStamp(buf, semi) != Never <==> exists v: Vms :: v.Ok() && v.Line() == buf)
    ensures DosMonth(buf).DosLine? <==> exists d: Dos :: d.Ok() && d.Line() == buf
  {
    var semi := Until(buf, 0, ';');
    UntilFirst(buf, 0, ';');
    if semi < |buf| && VmsStamp(buf, semi) != Never {
      var v := VmsBack(buf, semi);
    }
    forall v: Vms | v.Ok() && v.Line() == buf ensures semi < |buf| && VmsStamp(buf, semi) != Never {
      VmsStarts(v);
      VmsRoundTrip(v);
    }
    if DosMonth(buf).DosLine? {
      var d := DosLineBack(buf);
    }
    forall d: Dos | d.Ok() && d.Line() == buf ensures DosMonth(buf).DosLine? {
      DosRoundTrip(d);
    }
  }

  /** ftpparse: the first byte, then a semicolon, then a digit decide the format. */
  method Parse(buf: string, clock: Clock, zero: Tm, time: int) returns (ok: bool, fp: Entry)
    modifies clock
    ensures Within(fp, buf)
    ensures |buf| < 2 ==> !ok
    ensures |buf| >= 2 && buf[0] == '+' ==> (ok, fp) == Eplf(buf, 1, 1, BLANK, old(clock.Base(zero)))
    ensures |buf| >= 2 && UnixType(buf[0]) ==>
      var c := Walk(buf, 0, 1, START);
      ok == (c.state == 8) && (ok ==> c.name <= |buf| && UnixEntry(buf, c, fp, clock.base, clock.now, clock.currentYear))
    ensures |buf| >= 2 && buf[0] != '+' && !UnixType(buf[0]) ==>
      var semi := Until(buf, 0, ';');
      if semi < |buf| then ok == (VmsStamp(buf, semi) != Never) && (ok ==> VmsEntry(buf, semi, fp, clock.base))
      else ok == ('0' <= buf[0] <= '9' && DosMonth(buf).DosLine?) && (ok ==> DosEntry(buf, fp, clock.base))
  {
    fp := BLANK;
    if |buf| < 2 {
      return false, fp;
    }
    if buf[0] == '+' {
      ok, fp := ParseEplf(buf, clock, zero);
      return;
    }
    if UnixType(buf[0]) {
      ok, fp := Unix(buf, clock, zero, time);
      return;
    }
    var i := 0;
    while i < |buf| && buf[i] != ';'
      invariant i <= |buf| && Until(buf, i, ';') == Until(buf, 0, ';')
    {
      i := i + 1;
    }
    if i < |buf| {
      ok, fp := ParseVms(buf, i, clock, zero);
    } else if '0' <= buf[0] <= '9' {
      ok, fp := ParseDos(buf, clock, zero);
    } else {
      ok := false;
    }
  }

  /** fp has the time of the last columns of a line of ls. */
  ghost predicate LsTime(fp: Entry, l: Ls, t: When, base: int, now: int, currentYear: int, today: Date) {
    match t
    case InYear(y) =>
      && fp.mtimetype == MTIME_REMOTEDAY
      && (Valid(y, l.month, l.mday) ==> fp.mtime == base + Seconds(y, l.month, l.mday, 0, 0))
    case TimeOfDay(h, m) =>
      && fp.mtimetype == MTIME_REMOTEMINUTE
      && (EveryYear(l.month, l.mday) && Today(today, now, currentYear) ==>
           exists y :: Valid(y, l.month, l.mday) && fp.mtime == base + Seconds(y, l.month, l.mday, h, m)
             && InWindow(Seconds(y, l.month, l.mday, 0, 0), now))
  }

  lemma LsTimeIs(fp: Entry, l: Ls, t: When, c: Cols, base: int, now: int, currentYear: int, today: Date)
    requires Prints(l.when, t) && Read(c, l, c.name)
    requires fp.mtimetype == TypeOf(c.stamp) && fp.mtime == TimeOf(c.stamp, base, now, currentYear)
    ensures LsTime(fp, l, t, base, now, currentYear, today)
  {
    TakePrinted(c, l.when, 0, t);
    if t.InYear? && Valid(t.year, l.month, l.mday) {
      TimeOfDate(c.stamp, base, now, currentYear);
    }
    if t.TimeOfDay? && EveryYear(l.month, l.mday) && Today(today, now, currentYear) {
      var y := TimeOfDay(c.stamp, base, now, currentYear, today);
    }
  }

  /** What ls prints, parsed: the name it printed, or for a link what stands before the first
      arrow, with the size, the kind and the time. */
  method ParseLs(l: Ls, clock: Clock, zero: Tm, time: int, ghost t: When, ghost today: Date) returns (ok: bool, fp: Entry)
    requires l.Ok() && |l.perm| >= 2 && l.perm[0] in "bcdlps-" && l.perm[1] != '['
    modifies clock
    ensures ok && Within(fp, l.Line())
    ensures Name(fp, l.Line()) == if l.perm[0] == 'l' then l.name[..Arrow(l.name, 0)] else l.name
    ensures fp.sizeKnown && fp.size == l.size
    ensures fp.flagtrycwd <==> l.perm[0] == 'd' || l.perm[0] == 'l'
    ensures fp.flagtryretr <==> l.perm[0] == '-' || l.perm[0] == 'l'
    ensures Prints(l.when, t) ==> LsTime(fp, l, t, clock.base, clock.now, clock.currentYear, today)
  {
    LsReadBack(l);
    LsEnds(l);
    ok, fp := Parse(l.Line(), clock, zero, time);
    if Prints(l.when, t) {
      LsTimeIs(fp, l, t, Walk(l.Line(), 0, 1, START), clock.base, clock.now, clock.currentYear, today);
    }
  }

  /** A line that starts with the sign of a UNIX listing is taken for one exactly when its words
      are dated: from the fifth one on, or the fourth after "folder", there is a month, and after
      the first such word a day, and a time or year of four characters or more. */
  method ParseUnixLine(cells: seq<Cell>, tail: string, clock: Clock, zero: Tm, time: int) returns (ok: bool, fp: Entry)
    requires AllOk(cells) && ' ' !in tail && (Text(cells) + tail + " ")[0] in "bcdlps-"
    modifies clock
    ensures ok <==> |Text(cells) + tail| >= 2 && Dated(cells, Before(cells) + 1)
  {
    var buf := Text(cells) + tail;
    ok, fp := Parse(buf, clock, zero, time);
    if |buf| >= 2 {
      ListingExactly(cells, tail);
    }
  }

  /** An EPLF line, parsed: what its facts say, and its name. */
  method ParseEplfLine(fs: seq<Fact>, facts: seq<string>, name: string, clock: Clock, zero: Tm, time: int)
      returns (ok: bool, fp: Entry)
    requires AllShown(fs, facts)
    modifies clock
    ensures ok && Within(fp, EplfLine(facts, name)) && Name(fp, EplfLine(facts, name)) == name
    ensures SaysFlags(fp, fs) && SaysSize(fp, fs) && SaysTime(fp, fs, old(clock.Base(zero)))
    ensures SaysId(fp, fs, EplfLine(facts, name))
  {
    ghost var base := clock.Base(zero);
    EplfRoundTrip(facts, name, base);
    ok, fp := Parse(EplfLine(facts, name), clock, zero, time);
    ghost var r := FactsSay(fs, facts, name, |fs|, base, EplfLine(facts, name));
    assert facts[..|fs|] == facts && fs[..|fs|] == fs && Unfold(0);
  }

  /** What a printed VMS line says: the name without its version, and without .DIR, which says
      that it is a directory; and the time. */
  ghost predicate VmsRead(v: Vms, fp: Entry, base: int)
    requires Within(fp, v.Line())
  {
    var n, y, m, d := |v.name|, GetLong(v.year), v.month, GetLong(v.mday);
    var dir := n > 4 && v.name[n - 4..] == ".DIR";
    && Name(fp, v.Line()) == (if dir then v.name[..n - 4] else v.name)
    && fp.flagtrycwd == dir && fp.flagtryretr == !dir && !fp.sizeKnown && !fp.idFull
    && fp.mtimetype == MTIME_REMOTEMINUTE
    && (Valid(y, m, d) ==> fp.mtime == base + Seconds(y, m, d, GetLong(v.hour), GetLong(v.minute)))
  }

  /** A VMS line is read for what it says exactly when its name does not start with the sign of
      another format. */
  method ParseVmsLine(v: Vms, clock: Clock, zero: Tm, time: int) returns (ok: bool, fp: Entry)
    requires v.Ok()
    modifies clock
    ensures Within(fp, v.Line())
    ensures ok && VmsRead(v, fp, clock.base) <==> (v.name + ";")[0] !in "+bcdlps-"
  {
    ghost var base := clock.Base(zero);
    VmsStarts(v);
    VmsRoundTrip(v);
    ok, fp := Parse(v.Line(), clock, zero, time);
    if (v.name + ";")[0] !in "+bcdlps-" {
      VmsReads(v, fp, clock.base);
    } else if (v.name + ";")[0] == '+' {
      EplfTime(v.Line(), 1, 1, BLANK, base);
    }
  }

  /** No fact gives a time to the minute. */
  lemma {:induction false} EplfTime(buf: string, i: nat, j: nat, fp: Entry, base: int)
    requires i <= j && Within(fp, buf) && fp.mtimetype != MTIME_REMOTEMINUTE
    ensures Eplf(buf, i, j, fp, base).1.mtimetype != MTIME_REMOTEMINUTE
    decreases |buf| - j
  {
    if j < |buf| && buf[j] != '\t' {
      if buf[j] == ',' {
        EplfTime(buf, j + 1, j + 1, TakeFact(fp, buf[i..j], i, base), base);
      } else {
        EplfTime(buf, i, j + 1, fp, base);
      }
    }
  }

  lemma VmsReads(v: Vms, fp: Entry, base: int)
    requires v.Ok() && |v.name| < |v.Line()| && Within(fp, v.Line()) && VmsEntry(v.Line(), |v.name|, fp, base)
    ensures VmsRead(v, fp, base)
  {
    var buf, n := v.Line(), |v.name|;
    VmsStarts(v);
    VmsRoundTrip(v);
    assert DotDir(buf, n) ==> buf[..n - 4] == v.name[..n - 4];
    if Valid(GetLong(v.year), v.month, GetLong(v.mday)) {
      TimeOfDate(v.Date(), base, 0, 0);
    }
  }

  lemma VmsStarts(v: Vms)
    requires v.Ok()
    ensures var buf, n := v.Line(), |v.name|;
      && n + 2 <= |buf| && buf[0] == (v.name + ";")[0] && buf[..n] == v.name && Until(buf, 0, ';') == n
      && (DotDir(buf, n) <==> n > 4 && v.name[n - 4..] == ".DIR")
  {
    var buf, n := v.Line(), |v.name|;
    assert buf[..n] == v.name && forall x :: 0 <= x < n ==> buf[x] == v.name[x];
    assert Tail(v.Pieces(), 0, v.minute + ([v.end] + v.tail))[0] == ';';
    UntilIs(buf, 0, ';', n);
    if n > 4 {
      assert v.name[n - 4..] == [buf[n - 4], buf[n - 3], buf[n - 2], buf[n - 1]];
    }
  }

  /** What a printed MSDOS line says. */
  ghost predicate DosRead(d: Dos, buf: string, fp: Entry, base: int)
    requires Within(fp, buf) && d.what != ""
  {
    && Name(fp, buf) == d.name && !fp.idFull
    && fp.flagtrycwd == (d.what[0] == '<') && fp.flagtryretr == (d.what[0] != '<')
    && fp.sizeKnown == fp.flagtryretr && (fp.sizeKnown ==> fp.size == GetLong(d.what))
    && fp.mtimetype == MTIME_REMOTEMINUTE && DosTime(d, fp.mtime - base)
  }

  /** An MSDOS line is read for what it says exactly when its name holds no semicolon, which
      makes it a VMS line. */
  method ParseDosLine(d: Dos, clock: Clock, zero: Tm, time: int) returns (ok: bool, fp: Entry)
    requires d.Ok() && d.month != "" && '0' <= d.month[0] <= '9' && (';' in d.Line() ==> ';' in d.name)
    modifies clock
    ensures Within(fp, d.Line())
    ensures ok && DosRead(d, d.Line(), fp, clock.base) <==> ';' !in d.name
  {
    var buf := d.Line();
    DosLineIs(d, buf);
    ok, fp := Parse(buf, clock, zero, time);
    if ';' in d.name {
      UntilFirst(buf, 0, ';');
    } else {
      DosReads(d, buf, fp, clock.base);
    }
  }

  lemma DosLineIs(d: Dos, buf: string)
    requires d.Ok() && d.month != "" && '0' <= d.month[0] <= '9' && buf == d.Line() && (';' in buf ==> ';' in d.name)
    ensures |buf| >= 2 && '0' <= buf[0] <= '9' && (Until(buf, 0, ';') < |buf| <==> ';' in d.name)
    ensures |d.name| <= |buf| && buf[|buf| - |d.name|..] == d.name && DosMonth(buf) == d.Reads(|buf|)
  {
    DosBegins(d, buf);
    DosGivesBack(d, buf);
    UntilFirst(buf, 0, ';');
    assert ';' in d.name ==> ';' in buf[|buf| - |d.name|..];
  }

  lemma DosGivesBack(d: Dos, buf: string)
    requires d.Ok() && buf == d.Line()
    ensures buf != "" && |d.name| <= |buf| && buf[|buf| - |d.name|..] == d.name && DosMonth(buf) == d.Reads(|buf|)
  {
    DosRoundTrip(d);
  }

  lemma DosReads(d: Dos, buf: string, fp: Entry, base: int)
    requires d.what != "" && |d.name| <= |buf| && buf[|buf| - |d.name|..] == d.name
    requires buf != "" && DosMonth(buf) == d.Reads(|buf|) && Within(fp, buf) && DosEntry(buf, fp, base)
    ensures DosRead(d, buf, fp, base)
  {
    DosFieldsRead(d, buf, d.Reads(|buf|), fp, base);
    DosTimeIs(d, base);
  }

  /** The entry made of what a line says. */
  lemma DosFieldsRead(d: Dos, buf: string, r: DosLine, fp: Entry, base: int)
    requires d.what != "" && |d.name| <= |buf| && buf[|buf| - |d.name|..] == d.name && r == d.Reads(|buf|)
    requires buf != "" && DosMonth(buf) == r && Within(fp, buf) && DosEntry(buf, fp, base)
    ensures Name(fp, buf) == d.name && !fp.idFull
    ensures fp.flagtrycwd == (d.what[0] == '<') && fp.flagtryretr == (d.what[0] != '<')
    ensures fp.sizeKnown == fp.flagtryretr && (fp.sizeKnown ==> fp.size == GetLong(d.what))
    ensures fp.mtimetype == MTIME_REMOTEMINUTE && fp.mtime == TimeOf(d.Date(), base, 0, 0)
  {
  }

  /** t is the printed time: a year of two digits lies between 1950 and 2049, and of twelve
      hours twice the first is the twelfth. */
  predicate DosTime(d: Dos, t: int) {
    var g, h := GetLong(d.year), GetLong(d.hour);
    var y := if g < 50 then g + 2000 else if g < 1000 then g + 1900 else g;
    var hour := (if h == 12 then 0 else h) + if 'P' in d.marks then 12 else 0;
    0 <= g && Valid(y, GetLong(d.month) - 1, GetLong(d.mday)) ==>
      t == Seconds(y, GetLong(d.month) - 1, GetLong(d.mday), hour, GetLong(d.minute))
  }

  lemma DosTimeIs(d: Dos, base: int)
    ensures DosTime(d, TimeOf(d.Date(), base, 0, 0) - base)
  {
    if 0 <= GetLong(d.year) && Valid(FullYear(GetLong(d.year)), GetLong(d.month) - 1, GetLong(d.mday)) {
      TimeOfDate(d.Date(), base, 0, 0);
    }
  }

  lemma DosBegins(d: Dos, buf: string)
    requires d.Ok() && d.month != "" && buf == d.Line()
    ensures |buf| >= 2 && buf[0] == d.month[0]
  {
    assert d.Pieces()[0].word == d.month;
  }
}
