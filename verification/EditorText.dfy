/**
 The text of an editor buffer as a value: rows of characters, each ended by a
 newline, and the offset of a row and column in that text.
 */
module EditorRows {
  type Row = seq<char>

  const NEWLINE := '\n'
  const NUL := '\0'

  function Flat(rows: seq<Row>): Row {
    if rows == [] then [] else rows[0] + [NEWLINE] + Flat(rows[1..])
  }

  lemma {:induction false} FlatConcat(a: seq<Row>, b: seq<Row>)
    ensures Flat(a + b) == Flat(a) + Flat(b)
  {
    if a == [] {
      assert a + b == b;
    } else {
      FlatConcat(a[1..], b);
      assert (a + b)[1..] == a[1..] + b;
    }
  }

  lemma FlatOne(row: Row)
    ensures Flat([row]) == row + [NEWLINE]
  {
    assert [row][1..] == [];
  }

  lemma FlatTwo(a: Row, b: Row)
    ensures Flat([a, b]) == a + [NEWLINE] + b + [NEWLINE]
  {
    FlatOne(b);
    assert [a, b][1..] == [b];
  }

  /** The text around some rows `b` in the middle. */
  lemma FlatThree(a: seq<Row>, b: seq<Row>, c: seq<Row>)
    ensures Flat(a + b + c) == Flat(a) + Flat(b) + Flat(c)
  {
    FlatConcat(a, b);
    FlatConcat(a + b, c);
  }

  /** The offset of a position in the text. */
  function Offset(rows: seq<Row>, r: nat, c: nat): nat
    requires r <= |rows|
  {
    |Flat(rows[..r])| + c
  }

  function Insert(t: Row, p: nat, s: Row): Row
    requires p <= |t|
  {
    t[..p] + s + t[p..]
  }

  function Remove(t: Row, a: nat, b: nat): Row
    requires a <= b <= |t|
  {
    t[..a] + t[b..]
  }

  /** Inserting into the middle one of three parts. */
  lemma InMiddle(t: Row, t': Row, x: Row, y: Row, y': Row, z: Row, c: nat, s: Row)
    requires t == x + y + z && t' == x + y' + z && c <= |y| && y' == Insert(y, c, s)
    ensures t' == Insert(t, |x| + c, s)
  {
    assert t[..|x| + c] == x + y[..c] && t[|x| + c..] == y[c..] + z;
  }

  lemma OutOfMiddle(t: Row, t': Row, x: Row, y: Row, y': Row, z: Row, a: nat, b: nat)
    requires t == x + y + z && t' == x + y' + z && a <= b <= |y| && y' == Remove(y, a, b)
    ensures t' == Remove(t, |x| + a, |x| + b)
  {
    assert t[..|x| + a] == x + y[..a] && t[|x| + b..] == y[b..] + z;
  }

  lemma InsertEarly(y: Row, z: Row, c: nat, s: Row)
    requires c <= |y|
    ensures Insert(y + z, c, s) == Insert(y, c, s) + z
  {
    assert (y + z)[..c] == y[..c] && (y + z)[c..] == y[c..] + z;
  }

  lemma RemoveEarly(y: Row, z: Row, a: nat, b: nat)
    requires a <= b <= |y|
    ensures Remove(y + z, a, b) == Remove(y, a, b) + z
  {
    assert (y + z)[..a] == y[..a] && (y + z)[b..] == y[b..] + z;
  }

  /** `rows` with rows `i` to `j - 1` replaced. */
  function Replaced(rows: seq<Row>, i: nat, j: nat, new_: seq<Row>): seq<Row>
    requires i <= j <= |rows|
  {
    rows[..i] + new_ + rows[j..]
  }

  lemma Parts(rows: seq<Row>, i: nat, j: nat, new_: seq<Row>)
    requires i <= j <= |rows|
    ensures Flat(rows) == Flat(rows[..i]) + Flat(rows[i..j]) + Flat(rows[j..])
    ensures Flat(Replaced(rows, i, j, new_)) == Flat(rows[..i]) + Flat(new_) + Flat(rows[j..])
  {
    ThreeWays(rows, i, j);
    FlatThree(rows[..i], rows[i..j], rows[j..]);
    FlatThree(rows[..i], new_, rows[j..]);
  }

  /** Replacing rows so that their text gains `s`. */
  lemma ReplaceInserts(rows: seq<Row>, i: nat, j: nat, new_: seq<Row>, c: nat, s: Row)
    requires i <= j <= |rows| && c <= |Flat(rows[i..j])| && Flat(new_) == Insert(Flat(rows[i..j]), c, s)
    ensures Offset(rows, i, c) <= |Flat(rows)| && Flat(Replaced(rows, i, j, new_)) == Insert(Flat(rows), Offset(rows, i, c), s)
  {
    Parts(rows, i, j, new_);
    InMiddle(Flat(rows), Flat(Replaced(rows, i, j, new_)), Flat(rows[..i]), Flat(rows[i..j]), Flat(new_), Flat(rows[j..]), c, s);
  }

  /** Replacing rows so that their text loses a stretch. */
  lemma ReplaceRemoves(rows: seq<Row>, i: nat, j: nat, new_: seq<Row>, a: nat, b: nat)
    requires i <= j <= |rows| && a <= b <= |Flat(rows[i..j])| && Flat(new_) == Remove(Flat(rows[i..j]), a, b)
    ensures Offset(rows, i, b) <= |Flat(rows)|
    ensures Flat(Replaced(rows, i, j, new_)) == Remove(Flat(rows), Offset(rows, i, a), Offset(rows, i, b))
  {
    Parts(rows, i, j, new_);
    OutOfMiddle(Flat(rows), Flat(Replaced(rows, i, j, new_)), Flat(rows[..i]), Flat(rows[i..j]), Flat(new_), Flat(rows[j..]), a, b);
  }

  /** Typing a character. */
  lemma TypeAt(rows: seq<Row>, r: nat, c: nat, ch: char)
    requires r < |rows| && c <= |rows[r]|
    ensures Offset(rows, r, c) <= |Flat(rows)|
    ensures Flat(Replaced(rows, r, r + 1, [Insert(rows[r], c, [ch])])) == Insert(Flat(rows), Offset(rows, r, c), [ch])
  {
    var row := rows[r];
    assert rows[r..r + 1] == [row];
    FlatOne(row);
    FlatOne(Insert(row, c, [ch]));
    InsertEarly(row, [NEWLINE], c, [ch]);
    ReplaceInserts(rows, r, r + 1, [Insert(row, c, [ch])], c, [ch]);
  }

  /** Erasing the character before a position. */
  lemma EraseAt(rows: seq<Row>, r: nat, c: nat)
    requires r < |rows| && 0 < c <= |rows[r]|
    ensures Offset(rows, r, c) <= |Flat(rows)|
    ensures Flat(Replaced(rows, r, r + 1, [Remove(rows[r], c - 1, c)])) == Remove(Flat(rows), Offset(rows, r, c) - 1, Offset(rows, r, c))
  {
    var row := rows[r];
    assert rows[r..r + 1] == [row];
    FlatOne(row);
    FlatOne(Remove(row, c - 1, c));
    RemoveEarly(row, [NEWLINE], c - 1, c);
    ReplaceRemoves(rows, r, r + 1, [Remove(row, c - 1, c)], c - 1, c);
  }

  /** Breaking a row in two. */
  lemma BreakAt(rows: seq<Row>, r: nat, c: nat)
    requires r < |rows| && c <= |rows[r]|
    ensures Offset(rows, r, c) <= |Flat(rows)|
    ensures Flat(Replaced(rows, r, r + 1, [rows[r][..c], rows[r][c..]])) == Insert(Flat(rows), Offset(rows, r, c), [NEWLINE])
  {
    var row := rows[r];
    assert rows[r..r + 1] == [row];
    FlatOne(row);
    FlatTwo(row[..c], row[c..]);
    assert Insert(row + [NEWLINE], c, [NEWLINE]) == row[..c] + [NEWLINE] + row[c..] + [NEWLINE];
    ReplaceInserts(rows, r, r + 1, [row[..c], row[c..]], c, [NEWLINE]);
  }

  lemma OffsetNext(rows: seq<Row>, r: nat)
    requires r < |rows|
    ensures Offset(rows, r + 1, 0) == Offset(rows, r, |rows[r]|) + 1 <= |Flat(rows)|
  {
    FlatOne(rows[r]);
    FlatConcat(rows[..r], [rows[r]]);
    assert rows[..r + 1] == rows[..r] + [rows[r]];
    FlatConcat(rows[..r + 1], rows[r + 1..]);
    assert rows == rows[..r + 1] + rows[r + 1..];
  }

  lemma DropsNewline(a: Row, b: Row)
    ensures Remove(a + [NEWLINE] + b + [NEWLINE], |a|, |a| + 1) == a + b + [NEWLINE]
  {
    var t := a + [NEWLINE] + b + [NEWLINE];
    assert t[..|a|] == a && t[|a| + 1..] == b + [NEWLINE];
  }

  /** Joining a row to the one before. */
  lemma CombineAt(rows: seq<Row>, r: nat)
    requires 0 < r < |rows|
    ensures 0 < Offset(rows, r, 0) == Offset(rows, r - 1, |rows[r - 1]|) + 1 <= |Flat(rows)|
    ensures Flat(Replaced(rows, r - 1, r + 1, [rows[r - 1] + rows[r]])) == Remove(Flat(rows), Offset(rows, r, 0) - 1, Offset(rows, r, 0))
  {
    OffsetNext(rows, r - 1);
    assert rows[r - 1..r + 1] == [rows[r - 1], rows[r]];
    PairText(rows[r - 1], rows[r]);
    ReplaceRemoves(rows, r - 1, r + 1, [rows[r - 1] + rows[r]], |rows[r - 1]|, |rows[r - 1]| + 1);
  }

  lemma PairText(a: Row, b: Row)
    ensures |a| + 1 <= |Flat([a, b])| && Flat([a + b]) == Remove(Flat([a, b]), |a|, |a| + 1)
  {
    FlatTwo(a, b);
    FlatOne(a + b);
    DropsNewline(a, b);
  }

  /** Rows before `i` do not move. */
  lemma OffsetKept(rows: seq<Row>, i: nat, j: nat, new_: seq<Row>, c: nat)
    requires i <= j <= |rows|
    ensures Offset(Replaced(rows, i, j, new_), i, c) == Offset(rows, i, c)
  {
    assert Replaced(rows, i, j, new_)[..i] == rows[..i];
  }

  /** The four edits as changes of the rows, with where the cursor goes. */
  lemma Breaks(was: seq<Row>, now: seq<Row>, r: nat, c: nat)
    requires r < |was| && c <= |was[r]| && now == Replaced(was, r, r + 1, [was[r][..c], was[r][c..]])
    ensures Offset(was, r, c) <= |Flat(was)| && Flat(now) == Insert(Flat(was), Offset(was, r, c), [NEWLINE])
    ensures Offset(now, r + 1, 0) == Offset(was, r, c) + 1
  {
    BreakAt(was, r, c);
    OffsetKept(was, r, r + 1, [was[r][..c], was[r][c..]], c);
    OffsetNext(now, r);
  }

  lemma Types(was: seq<Row>, now: seq<Row>, r: nat, c: nat, ch: char)
    requires r < |was| && c <= |was[r]| && now == Replaced(was, r, r + 1, [Insert(was[r], c, [ch])])
    ensures Offset(was, r, c) <= |Flat(was)| && Flat(now) == Insert(Flat(was), Offset(was, r, c), [ch])
    ensures Offset(now, r, c + 1) == Offset(was, r, c) + 1
  {
    TypeAt(was, r, c, ch);
    OffsetKept(was, r, r + 1, [Insert(was[r], c, [ch])], c + 1);
  }

  lemma Erases(was: seq<Row>, now: seq<Row>, r: nat, c: nat)
    requires r < |was| && 0 < c <= |was[r]| && now == Replaced(was, r, r + 1, [Remove(was[r], c - 1, c)])
    ensures 0 < Offset(was, r, c) <= |Flat(was)| && Flat(now) == Remove(Flat(was), Offset(was, r, c) - 1, Offset(was, r, c))
    ensures Offset(now, r, c - 1) == Offset(was, r, c) - 1
  {
    EraseAt(was, r, c);
    OffsetKept(was, r, r + 1, [Remove(was[r], c - 1, c)], c - 1);
  }

  lemma Combines(was: seq<Row>, now: seq<Row>, r: nat)
    requires 0 < r < |was| && now == Replaced(was, r - 1, r + 1, [was[r - 1] + was[r]])
    ensures 0 < Offset(was, r, 0) <= |Flat(was)| && Flat(now) == Remove(Flat(was), Offset(was, r, 0) - 1, Offset(was, r, 0))
    ensures Offset(now, r - 1, |was[r - 1]|) == Offset(was, r, 0) - 1
  {
    CombineAt(was, r);
    OffsetKept(was, r - 1, r + 1, [was[r - 1] + was[r]], |was[r - 1]|);
  }

  /** The order of positions, is_row_column_lt. */
  predicate Lt(r: nat, c: nat, q: nat, d: nat) {
    r < q || (r == q && c < d)
  }

  lemma {:induction false} OffsetMono(rows: seq<Row>, r: nat, q: nat)
    requires r <= q <= |rows|
    ensures Offset(rows, r, 0) <= Offset(rows, q, 0) <= |Flat(rows)|
    decreases |rows| - r
  {
    if r < |rows| {
      OffsetNext(rows, r);
      if r < q { OffsetMono(rows, r + 1, q); } else { OffsetMono(rows, r + 1, r + 1); }
    } else {
      assert rows[..r] == rows;
    }
  }

  /** Positions are ordered as their offsets. */
  lemma OffsetOrder(rows: seq<Row>, r: nat, c: nat, q: nat, d: nat)
    requires r < |rows| && c <= |rows[r]| && q < |rows| && d <= |rows[q]|
    ensures Lt(r, c, q, d) <==> Offset(rows, r, c) < Offset(rows, q, d)
    ensures Offset(rows, r, c) < |Flat(rows)|
  {
    OffsetNext(rows, r);
    OffsetNext(rows, q);
    if r < q { OffsetMono(rows, r + 1, q); }
    if q < r { OffsetMono(rows, q + 1, r); }
  }

  /** What stands in the text at the offsets of a row. */
  lemma RowText(rows: seq<Row>, r: nat, c: nat, d: nat)
    requires r < |rows| && c <= d <= |rows[r]|
    ensures Offset(rows, r, |rows[r]|) < |Flat(rows)|
    ensures Flat(rows)[Offset(rows, r, c)..Offset(rows, r, d)] == rows[r][c..d]
    ensures Flat(rows)[Offset(rows, r, |rows[r]|)] == NEWLINE
  {
    RowParts(rows, r);
    RowSlice(Flat(rows), Flat(rows[..r]), rows[r], Flat(rows[r + 1..]), c, d);
  }

  lemma RowParts(rows: seq<Row>, r: nat)
    requires r < |rows|
    ensures Flat(rows) == Flat(rows[..r]) + (rows[r] + [NEWLINE]) + Flat(rows[r + 1..])
  {
    ThreeWays(rows, r, r + 1);
    FlatThree(rows[..r], rows[r..r + 1], rows[r + 1..]);
    FlatOne(rows[r]);
  }

  lemma ThreeWays(rows: seq<Row>, i: nat, j: nat)
    requires i <= j <= |rows|
    ensures rows == rows[..i] + rows[i..j] + rows[j..]
    ensures j == i + 1 ==> rows[i..j] == [rows[i]]
  {
  }

  lemma RowSlice(t: Row, x: Row, row: Row, z: Row, c: nat, d: nat)
    requires t == x + (row + [NEWLINE]) + z && c <= d <= |row|
    ensures t[|x| + c..|x| + d] == row[c..d] && t[|x| + |row|] == NEWLINE
  {
  }

  /** A C string: everything before the first NUL. */
  function Upto(s: Row): Row {
    if s == [] || s[0] == NUL then [] else [s[0]] + Upto(s[1..])
  }

  lemma {:induction false} UptoWhole(s: Row)
    ensures Upto(s + [NUL]) == s <==> NUL !in s
  {
    if s != [] {
      assert (s + [NUL])[1..] == s[1..] + [NUL];
      UptoWhole(s[1..]);
      assert s == [s[0]] + s[1..];
    }
  }

  /** A position of some rows. */
  predicate InRows(rows: seq<Row>, r: nat, c: nat) {
    r < |rows| && c <= |rows[r]|
  }

  /** The place `dr`, `dc` is there in both, at the same offset. */
  predicate SamePlace(was: seq<Row>, now: seq<Row>, dr: nat, dc: nat) {
    InRows(was, dr, dc) && InRows(now, dr, dc) && Offset(now, dr, dc) == Offset(was, dr, dc)
  }

  /** What erasing before row `r`, column `c` makes of the rows and of the cursor. */
  ghost predicate Erased(was: seq<Row>, r: nat, c: nat, now: seq<Row>, r': nat, c': nat) {
    && InRows(was, r, c) && InRows(now, r', c') && Offset(was, r, c) <= |Flat(was)|
    && var p := Offset(was, r, c);
       if p == 0 then now == was && r' == r && c' == c
       else Flat(now) == Remove(Flat(was), p - 1, p) && Offset(now, r', c') == p - 1
  }

  lemma ErasedInRow(was: seq<Row>, now: seq<Row>, r: nat, c: nat, dr: nat, dc: nat)
    requires InRows(was, r, c) && c > 0 && now == Replaced(was, r, r + 1, [Remove(was[r], c - 1, c)]) && InRows(was, dr, dc)
    ensures Erased(was, r, c, now, r, c - 1) && (Lt(dr, dc, r, c) ==> SamePlace(was, now, dr, dc))
  {
    Erases(was, now, r, c);
    if Lt(dr, dc, r, c) { assert now[..dr] == was[..dr]; }
  }

  lemma ErasedBreak(was: seq<Row>, now: seq<Row>, r: nat, dr: nat, dc: nat)
    requires 0 < r < |was| && now == Replaced(was, r - 1, r + 1, [was[r - 1] + was[r]]) && InRows(was, dr, dc)
    ensures Erased(was, r, 0, now, r - 1, |was[r - 1]|) && (Lt(dr, dc, r, 0) ==> SamePlace(was, now, dr, dc))
  {
    Combines(was, now, r);
    if Lt(dr, dc, r, 0) { assert now[..dr] == was[..dr]; }
  }

  lemma ErasedNothing(was: seq<Row>)
    requires |was| > 0
    ensures Erased(was, 0, 0, was, 0, 0)
  {
    assert was[..0] == [];
  }

  lemma RemoveMore(t: Row, p: nat, b: nat)
    requires 0 < p <= b <= |t|
    ensures p <= |Remove(t, p, b)| && Remove(Remove(t, p, b), p - 1, p) == Remove(t, p - 1, b)
  {
  }

  function Min(a: nat, b: nat): nat {
    if a < b then a else b
  }

  function Max(a: nat, b: nat): nat {
    if a < b then b else a
  }

  lemma InsertMore(t: Row, a: nat, s: Row, i: nat)
    requires a <= |t| && i < |s| && s[i] != NUL
    ensures a + i <= |Insert(t, a, s[..i])|
    ensures Insert(Insert(t, a, s[..i]), a + i, [s[i]]) == Insert(t, a, s[..i + 1])
    ensures s[..i] + Upto(s[i..]) == s[..i + 1] + Upto(s[i + 1..])
  {
    assert s[..i + 1] == s[..i] + [s[i]] && s[i..][1..] == s[i + 1..];
    var u := Insert(t, a, s[..i]);
    assert u[..a + i] == t[..a] + s[..i] && u[a + i..] == t[a..];
  }

  /** `clip` with `w` copied over it at `o`. */
  function Put(clip: Row, o: nat, w: Row): Row
    requires o + |w| <= |clip|
  {
    clip[..o] + w + clip[o + |w|..]
  }

  lemma PutExtends(clip: Row, t: Row, a: nat, o: nat, w: Row)
    requires o + |w| <= |clip| && a + o + |w| <= |t| && clip[..o] == t[a..a + o] && w == t[a + o..a + o + |w|]
    ensures Put(clip, o, w)[..o + |w|] == t[a..a + o + |w|]
  {
    assert Put(clip, o, w)[..o + |w|] == clip[..o] + w;
  }

  /** `clip` holds the first `offset` of the `length` characters from `a` to the end position, those before row `r`, column `c`. */
  ghost predicate Gathers(rows: seq<Row>, a: nat, r: nat, c: nat, offset: nat, er: nat, ec: nat, length: nat, clip: Row) {
    && InRows(rows, r, c) && InRows(rows, er, ec) && (Lt(r, c, er, ec) || (r == er && c == ec))
    && Offset(rows, r, c) == a + offset && Offset(rows, er, ec) == a + length <= |Flat(rows)|
    && offset <= length && |clip| == length + 1 && clip[..offset] == Flat(rows)[a..a + offset]
  }

  lemma GathersEnd(rows: seq<Row>, a: nat, r: nat, c: nat, offset: nat, ec: nat, length: nat, clip: Row, part: Row)
    requires Gathers(rows, a, r, c, offset, r, ec, length, clip) && c <= ec && part == rows[r][c..ec]
    ensures offset + |part| <= |clip| && Gathers(rows, a, r, ec, offset + |part|, r, ec, length, Put(clip, offset, part))
  {
    RowText(rows, r, c, ec);
    assert part == Flat(rows)[a + offset..a + offset + |part|];
    PutExtends(clip, Flat(rows), a, offset, part);
  }

  lemma GathersRow(rows: seq<Row>, a: nat, r: nat, c: nat, offset: nat, er: nat, ec: nat, length: nat, clip: Row, part: Row)
    requires Gathers(rows, a, r, c, offset, er, ec, length, clip) && r < er && part == rows[r][c..] + [NEWLINE]
    ensures offset + |part| <= |clip| && Gathers(rows, a, r + 1, 0, offset + |part|, er, ec, length, Put(clip, offset, part))
  {
    RowText(rows, r, c, |rows[r]|);
    OffsetNext(rows, r);
    OffsetMono(rows, r + 1, er);
    var t, p := Flat(rows), Offset(rows, r, c);
    SliceEnd(t, p, p + |part|);
    assert part == t[a + offset..a + offset + |part|];
    PutExtends(clip, t, a, offset, part);
  }

  lemma SliceEnd(t: Row, p: nat, q: nat)
    requires p < q <= |t|
    ensures t[p..q] == t[p..q - 1] + [t[q - 1]]
  {
  }

  /** Putting the removed stretch back restores the text; putting anything else there does not. */
  lemma PutBack(t: Row, a: nat, b: nat, s: Row)
    requires a <= b <= |t|
    ensures Insert(Remove(t, a, b), a, s) == t <==> s == t[a..b]
  {
    var u := Remove(t, a, b);
    assert u[..a] == t[..a] && u[a..] == t[b..];
    assert t == t[..a] + t[a..b] + t[b..];
    if Insert(u, a, s) == t {
      var w := t[..a] + s + t[b..];
      assert |s| == b - a && w[a..b] == s;
    }
  }

  /** Cutting a selection and pasting it restores the text exactly when it holds no NUL. */
  lemma CutPasteRestores(t: Row, a: nat, b: nat)
    requires a <= b <= |t|
    ensures Insert(Remove(t, a, b), a, Upto(t[a..b] + [NUL])) == t <==> NUL !in t[a..b]
  {
    PutBack(t, a, b, Upto(t[a..b] + [NUL]));
    UptoWhole(t[a..b]);
  }
}

/**
 The editing commands of the editor on its array of lines: each line owns a
 character buffer with spare room, and the array of lines has spare room too.
 */
module EditorText {
  import opened EditorRows

  /** A line: the first `used` characters of its buffer. */
  datatype Line = Line(data: seq<char>, used: nat)

  predicate LineOk(l: Line) {
    l.used <= |l.data|
  }

  function RowOf(l: Line): Row {
    if LineOk(l) then l.data[..l.used] else []
  }

  function Rows(lines: seq<Line>): (rows: seq<Row>)
    ensures |rows| == |lines|
  {
    seq(|lines|, i requires 0 <= i < |lines| => RowOf(lines[i]))
  }

  lemma SliceOfUsed(l: Line, c: nat, d: nat)
    requires LineOk(l) && c <= d <= l.used
    ensures l.data[c..d] == RowOf(l)[c..d] && (d == l.used ==> RowOf(l)[c..d] == RowOf(l)[c..])
  {
    var x, y := l.data[c..d], RowOf(l)[c..d];
    forall i | 0 <= i < d - c ensures x[i] == y[i] {}
    assert x == y;
  }

  /** Moves elements `from` to `used - 1` up by one, from the end on. */
  method ShiftUp<T>(s: seq<T>, from: nat, used: nat) returns (t: seq<T>)
    requires from <= used < |s|
    ensures |t| == |s| && t[..from] == s[..from] && t[from + 1..used + 1] == s[from..used]
  {
    t := s;
    var i := used;
    while from < i
      invariant from <= i <= used && |t| == |s|
      invariant t[..i] == s[..i] && t[i + 1..used + 1] == s[i..used]
    {
      t := t[i := t[i - 1]];
      i := i - 1;
    }
  }

  /** Moves elements `from + 1` to `used - 1` down by one. */
  method ShiftDown<T>(s: seq<T>, from: nat, used: nat) returns (t: seq<T>)
    requires from < used <= |s|
    ensures |t| == |s| && t[..from] == s[..from] && t[from..used - 1] == s[from + 1..used]
  {
    t := s;
    var i := from;
    while i < used - 1
      invariant from <= i <= used - 1 && |t| == |s|
      invariant forall k | 0 <= k < |s| && !(from <= k < i) :: t[k] == s[k]
      invariant forall k | from <= k < i :: t[k] == s[k + 1]
    {
      t := t[i := t[i + 1]];
      i := i + 1;
    }
  }

  lemma RowsAt(lines: seq<Line>, r: nat, l: Line)
    requires r < |lines|
    ensures Rows(lines[r := l]) == Replaced(Rows(lines), r, r + 1, [RowOf(l)])
  {
    var a, b := Rows(lines[r := l]), Replaced(Rows(lines), r, r + 1, [RowOf(l)]);
    forall i | 0 <= i < |a| ensures a[i] == b[i] {}
  }

  /** The rows after a line was split into `x` and `y`, the later ones moved up. */
  lemma RowsSplit(lines: seq<Line>, lines': seq<Line>, r: nat, x: Line, y: Line)
    requires r < |lines| && |lines'| == |lines| + 1 && lines'[..r] == lines[..r] && lines'[r + 2..] == lines[r + 1..]
    requires lines'[r] == x && lines'[r + 1] == y
    ensures Rows(lines') == Replaced(Rows(lines), r, r + 1, [RowOf(x), RowOf(y)])
  {
    var a, b := Rows(lines'), Replaced(Rows(lines), r, r + 1, [RowOf(x), RowOf(y)]);
    forall i | 0 <= i < |a| ensures a[i] == b[i] {
      if i < r { assert lines'[..r][i] == lines[..r][i]; }
      else if i > r + 1 { assert lines'[r + 2..][i - r - 2] == lines[r + 1..][i - r - 2]; }
    }
  }

  /** The rows after line `r + 1` was joined to line `r`, the later ones moved down. */
  lemma RowsJoined(lines: seq<Line>, lines': seq<Line>, r: nat, x: Line)
    requires r + 1 < |lines| && |lines'| == |lines| - 1 && lines'[..r] == lines[..r] && lines'[r + 1..] == lines[r + 2..]
    requires lines'[r] == x
    ensures Rows(lines') == Replaced(Rows(lines), r, r + 2, [RowOf(x)])
  {
    var a, b := Rows(lines'), Replaced(Rows(lines), r, r + 2, [RowOf(x)]);
    forall i | 0 <= i < |a| ensures a[i] == b[i] {
      if i < r { assert lines'[..r][i] == lines[..r][i]; }
      else if i > r { assert lines'[r + 1..][i - r - 1] == lines[r + 2..][i - r - 1]; }
    }
  }

  ghost predicate AllOk(lines: seq<Line>) {
    forall i {:trigger lines[i]} | 0 <= i < |lines| :: LineOk(lines[i])
  }

  /** The array of lines with room for one more. */
  method MakeRoom(lines: seq<Line>, used: nat) returns (grown: seq<Line>)
    requires used <= |lines|
    ensures used < |grown| && grown[..used] == lines[..used]
  {
    grown := lines;
    if used == |lines| {
      var length := if |lines| > 0 then 2 * |lines| else 8;
      grown := lines[..used] + seq(length - used, i => Line([], 0));
    }
  }

  /** The line array part of editor_type_newline. */
  method SplitLine(lines: seq<Line>, used: nat, r: nat, c: nat) returns (lines': seq<Line>)
    requires used <= |lines| && AllOk(lines[..used]) && r < used && c <= lines[r].used
    ensures used + 1 <= |lines'| && AllOk(lines'[..used + 1])
    ensures var row := RowOf(lines[r]); c <= |row| && Rows(lines'[..used + 1]) == Replaced(Rows(lines[..used]), r, r + 1, [row[..c], row[c..]])
  {
    var line := lines[r];
    assert LineOk(lines[..used][r]);
    var grown := MakeRoom(lines, used);
    assert grown[r] == grown[..used][r] == line;
    lines' := ShiftUp(grown, r + 1, used);
    assert lines'[..r + 1] == grown[..used][..r + 1] == lines[..r + 1];
    var keep := Line(line.data[..c], c);
    var move := Line(line.data[c..line.used], line.used - c);
    lines' := lines'[r := keep][r + 1 := move];
    ghost var a, b := lines[..used], lines'[..used + 1];
    assert b[..r] == a[..r];
    assert b[r + 2..] == grown[r + 1..used] == grown[..used][r + 1..] == a[r + 1..];
    SplitOk(a, b, r, keep, move);
    RowsSplit(a, b, r, keep, move);
    assert RowOf(keep) == RowOf(line)[..c] && RowOf(move) == RowOf(line)[c..];
  }

  lemma SplitOk(a: seq<Line>, b: seq<Line>, r: nat, x: Line, y: Line)
    requires AllOk(a) && r < |a| && |b| == |a| + 1 && b[..r] == a[..r] && b[r + 2..] == a[r + 1..] && b[r] == x && b[r + 1] == y
    requires LineOk(x) && LineOk(y)
    ensures AllOk(b)
  {
    forall i | 0 <= i < |b| ensures LineOk(b[i]) {
      if i < r { assert b[..r][i] == a[..r][i]; }
      else if i > r + 1 { assert b[r + 2..][i - r - 2] == a[r + 1..][i - r - 2]; }
    }
  }

  /** The line array part of editor_type_combine_with_last. */
  method JoinLines(lines: seq<Line>, used: nat, r: nat) returns (lines': seq<Line>)
    requires used <= |lines| && AllOk(lines[..used]) && 0 < r < used
    ensures used - 1 <= |lines'| && AllOk(lines'[..used - 1])
    ensures Rows(lines'[..used - 1]) == Replaced(Rows(lines[..used]), r - 1, r + 1, [RowOf(lines[r - 1]) + RowOf(lines[r])])
  {
    assert LineOk(lines[..used][r - 1]) && LineOk(lines[..used][r]);
    var keep, gone := lines[r - 1], lines[r];
    var line := Line(keep.data[..keep.used] + gone.data[..gone.used], keep.used + gone.used);
    lines' := lines[r - 1 := line];
    lines' := ShiftDown(lines', r, used);
    ghost var a, b := lines[..used], lines'[..used - 1];
    assert b[..r - 1] == lines'[..r][..r - 1] == a[..r - 1];
    assert b[r - 1] == lines'[..r][r - 1] == line;
    assert b[r..] == a[r + 1..];
    JoinOk(a, b, r, line);
    RowsJoined(a, b, r - 1, line);
    assert RowOf(line) == RowOf(keep) + RowOf(gone);
  }

  /** The same, as a change of the text; `dr`, `dc` is any place in it. */
  method JoinAt(lines: seq<Line>, used: nat, r: nat, ghost dr: nat, ghost dc: nat) returns (lines': seq<Line>)
    requires used <= |lines| && AllOk(lines[..used]) && 0 < r < used && InRows(Rows(lines[..used]), dr, dc)
    ensures used - 1 <= |lines'| && AllOk(lines'[..used - 1])
    ensures Erased(Rows(lines[..used]), r, 0, Rows(lines'[..used - 1]), r - 1, lines[r - 1].used)
    ensures Lt(dr, dc, r, 0) ==> SamePlace(Rows(lines[..used]), Rows(lines'[..used - 1]), dr, dc)
  {
    ghost var was := Rows(lines[..used]);
    assert was[r - 1] == RowOf(lines[..used][r - 1]) && was[r] == RowOf(lines[..used][r]);
    lines' := JoinLines(lines, used, r);
    ErasedBreak(was, Rows(lines'[..used - 1]), r, dr, dc);
    assert LineOk(lines[..used][r - 1]);
  }

  lemma JoinOk(a: seq<Line>, b: seq<Line>, r: nat, x: Line)
    requires AllOk(a) && 0 < r < |a| && |b| == |a| - 1 && b[..r - 1] == a[..r - 1] && b[r..] == a[r + 1..] && b[r - 1] == x && LineOk(x)
    ensures AllOk(b)
  {
    forall i | 0 <= i < |b| ensures LineOk(b[i]) {
      if i < r - 1 { assert b[..r - 1][i] == a[..r - 1][i]; }
      else if i > r - 1 { assert b[r..][i - r] == a[r + 1..][i - r]; }
    }
  }

  lemma SetOk(lines: seq<Line>, r: nat, l: Line)
    requires AllOk(lines) && r < |lines| && LineOk(l)
    ensures AllOk(lines[r := l])
  {
  }

  /** The character buffer part of editor_type_raw_character. */
  method PutChar(line: Line, c: nat, ch: char) returns (line': Line)
    requires LineOk(line) && c <= line.used
    ensures LineOk(line') && RowOf(line') == Insert(RowOf(line), c, [ch])
  {
    var data := line.data;
    if line.used == |data| {
      var length := if |data| > 0 then 2 * |data| else 8;
      data := data[..line.used] + seq(length - line.used, i => NUL);
    }
    assert data[..line.used] == RowOf(line);
    ghost var row := RowOf(line);
    var moved := ShiftUp(data, c, line.used);
    moved := moved[c := ch];
    line' := Line(moved, line.used + 1);
    assert moved[..c] == row[..c] && moved[c + 1..line.used + 1] == row[c..];
  }

  /** The character buffer part of editor_type_backspace. */
  method TakeChar(line: Line, c: nat) returns (line': Line)
    requires LineOk(line) && 0 < c <= line.used
    ensures LineOk(line') && RowOf(line') == Remove(RowOf(line), c - 1, c)
  {
    var data := ShiftDown(line.data, c - 1, line.used);
    line' := Line(data, line.used - 1);
    assert data[..line.used - 1] == data[..c - 1] + data[c - 1..line.used - 1];
  }

  class Editor {
    var lines: seq<Line>
    var linesUsed: nat
    var cursorRow: nat
    var cursorColumn: nat
    var selectRow: nat
    var selectColumn: nat
    /** The clipboard with its terminating NUL; empty before the first copy. */
    var clipboard: seq<char>

    /** An editor with one empty line. */
    constructor ()
      ensures Valid() && NoSelection() && Text() == [NEWLINE] && Cursor() == 0 && clipboard == []
    {
      lines, linesUsed := [Line([], 0)], 1;
      cursorRow, cursorColumn, selectRow, selectColumn, clipboard := 0, 0, 0, 0, [];
      new;
      FlatOne([]);
      assert Buffer() == [[]];
    }

    /** The rows in use. */
    ghost function Buffer(): seq<Row>
      requires linesUsed <= |lines|
      reads this`lines, this`linesUsed
    {
      Rows(lines[..linesUsed])
    }

    /** A position of the text. */
    ghost predicate Inside(r: nat, c: nat)
      reads this`lines, this`linesUsed
    {
      linesUsed <= |lines| && InRows(Buffer(), r, c)
    }

    ghost predicate Valid()
      reads this
    {
      && linesUsed <= |lines| && AllOk(lines[..linesUsed])
      && Inside(cursorRow, cursorColumn) && Inside(selectRow, selectColumn)
    }

    ghost function Text(): Row
      requires linesUsed <= |lines|
      reads this`lines, this`linesUsed
    {
      Flat(Buffer())
    }

    /** The offset of the cursor in the text, and of the other end of the selection. */
    ghost function Cursor(): nat
      requires linesUsed <= |lines| && cursorRow <= linesUsed
      reads this
    {
      Offset(Buffer(), cursorRow, cursorColumn)
    }

    ghost function Select(): nat
      requires linesUsed <= |lines| && selectRow <= linesUsed
      reads this
    {
      Offset(Buffer(), selectRow, selectColumn)
    }

    predicate NoSelection()
      reads this
    {
      selectRow == cursorRow && selectColumn == cursorColumn
    }

    /** editor_cursor_set, with the assertions of editor_select_set as its precondition. */
    method CursorSet(y: nat, x: nat)
      requires y < linesUsed <= |lines| && x <= lines[y].used
      modifies this`cursorRow, this`cursorColumn, this`selectRow, this`selectColumn
      ensures cursorRow == selectRow == y && cursorColumn == selectColumn == x
    {
      selectRow, selectColumn := y, x;
      cursorColumn, cursorRow := x, y;
    }

    lemma RowAt(r: nat)
      requires linesUsed <= |lines| && AllOk(lines[..linesUsed]) && r < linesUsed
      ensures LineOk(lines[r]) && Buffer()[r] == RowOf(lines[r]) && |RowOf(lines[r])| == lines[r].used
    {
      assert lines[..linesUsed][r] == lines[r];
    }

    /** editor_type_newline: a newline at the cursor. */
    method TypeNewline()
      requires Valid()
      modifies this
      ensures Valid() && NoSelection() && clipboard == old(clipboard)
      ensures old(Cursor()) <= |old(Text())| && Text() == Insert(old(Text()), old(Cursor()), [NEWLINE])
      ensures Cursor() == old(Cursor()) + 1
    {
      ghost var was, r, c := Buffer(), cursorRow, cursorColumn;
      RowAt(r);
      lines := SplitLine(lines, linesUsed, cursorRow, cursorColumn);
      linesUsed := linesUsed + 1;
      RowAt(r + 1);
      Breaks(was, Buffer(), r, c);
      CursorSet(cursorRow + 1, 0);
    }

    /** editor_type_raw_character: a character at the cursor. */
    method TypeCharacter(ch: char)
      requires Valid()
      modifies this
      ensures Valid() && NoSelection() && clipboard == old(clipboard)
      ensures old(Cursor()) <= |old(Text())| && Text() == Insert(old(Text()), old(Cursor()), [ch])
      ensures Cursor() == old(Cursor()) + 1
    {
      ghost var was, r, c := Buffer(), cursorRow, cursorColumn;
      RowAt(r);
      var line := PutChar(lines[cursorRow], cursorColumn, ch);
      RowsAt(lines[..linesUsed], r, line);
      SetOk(lines[..linesUsed], r, line);
      assert lines[r := line][..linesUsed] == lines[..linesUsed][r := line];
      lines := lines[cursorRow := line];
      Types(was, Buffer(), r, c, ch);
      CursorSet(cursorRow, cursorColumn + 1);
    }

    /** editor_type_backspace without a selection: the character before the cursor goes, if there is one. */
    method EraseBack(ghost dr: nat, ghost dc: nat)
      requires Valid() && NoSelection() && Inside(dr, dc)
      modifies this
      ensures Valid() && NoSelection() && clipboard == old(clipboard)
      ensures Erased(old(Buffer()), old(cursorRow), old(cursorColumn), Buffer(), cursorRow, cursorColumn)
      ensures old(Lt(dr, dc, cursorRow, cursorColumn)) ==> SamePlace(old(Buffer()), Buffer(), dr, dc)
    {
      if cursorColumn == 0 {
        CombineWithLast(dr, dc);
      } else {
        ghost var was, r, c := Buffer(), cursorRow, cursorColumn;
        RowAt(r);
        var line := TakeChar(lines[cursorRow], cursorColumn);
        RowsAt(lines[..linesUsed], r, line);
        SetOk(lines[..linesUsed], r, line);
        assert lines[r := line][..linesUsed] == lines[..linesUsed][r := line];
        lines := lines[cursorRow := line];
        ErasedInRow(was, Buffer(), r, c, dr, dc);
        RowAt(r);
        CursorSet(cursorRow, cursorColumn - 1);
      }
    }

    /** editor_type_combine_with_last. */
    method CombineWithLast(ghost dr: nat, ghost dc: nat)
      requires Valid() && NoSelection() && cursorColumn == 0 && Inside(dr, dc)
      modifies this
      ensures Valid() && NoSelection() && clipboard == old(clipboard)
      ensures Erased(old(Buffer()), old(cursorRow), 0, Buffer(), cursorRow, cursorColumn)
      ensures old(Lt(dr, dc, cursorRow, 0)) ==> SamePlace(old(Buffer()), Buffer(), dr, dc)
    {
      ghost var was, r := Buffer(), cursorRow;
      if cursorRow == 0 {
        ErasedNothing(was);
      } else {
        CursorSet(cursorRow - 1, lines[cursorRow - 1].used);
        var joined := JoinAt(lines, linesUsed, cursorRow + 1, dr, dc);
        lines, linesUsed := joined, linesUsed - 1;
      }
    }

    /** editor_type_delete_selection: the selected stretch goes, however it was selected, and the cursor ends at its start. */
    method DeleteSelection()
      requires Valid()
      modifies this
      ensures Valid() && NoSelection() && clipboard == old(clipboard)
      ensures var a, b := Min(old(Cursor()), old(Select())), Max(old(Cursor()), old(Select()));
        b <= |old(Text())| && Text() == Remove(old(Text()), a, b) && Cursor() == a
    {
      RowAt(cursorRow);
      RowAt(selectRow);
      OffsetOrder(Buffer(), selectRow, selectColumn, cursorRow, cursorColumn);
      OffsetOrder(Buffer(), cursorRow, cursorColumn, selectRow, selectColumn);
      if Lt(selectRow, selectColumn, cursorRow, cursorColumn) {
        selectRow, cursorRow := cursorRow, selectRow;
        selectColumn, cursorColumn := cursorColumn, selectColumn;
      }
      var row, column := cursorRow, cursorColumn;
      cursorRow, cursorColumn := selectRow, selectColumn;
      EraseTo(row, column);
    }

    /** The text was `t`; of its stretch from `a`, which is at `row` and `column`, to `b`, the part after the cursor is gone. */
    ghost predicate Erasing(t: Row, a: nat, b: nat, row: nat, column: nat, clip: seq<char>)
      reads this
    {
      && Valid() && NoSelection() && clipboard == clip && Inside(row, column)
      && Offset(Buffer(), row, column) == a <= Cursor() <= b <= |t| && Text() == Remove(t, Cursor(), b)
    }

    method EraseOnce(ghost t: Row, ghost a: nat, ghost b: nat, ghost row: nat, ghost column: nat, ghost clip: seq<char>)
      requires Erasing(t, a, b, row, column, clip) && !(cursorRow == row && cursorColumn == column)
      modifies this
      ensures Erasing(t, a, b, row, column, clip) && Cursor() < old(Cursor())
    {
      OffsetOrder(Buffer(), row, column, cursorRow, cursorColumn);
      OffsetOrder(Buffer(), cursorRow, cursorColumn, row, column);
      RemoveMore(t, Cursor(), b);
      EraseBack(row, column);
    }

    method EraseTo(row: nat, column: nat)
      requires Valid() && NoSelection() && Inside(row, column) && Offset(Buffer(), row, column) <= Cursor() <= |Text()|
      modifies this
      ensures Valid() && NoSelection() && clipboard == old(clipboard)
      ensures Cursor() == old(Offset(Buffer(), row, column)) && Text() == Remove(old(Text()), Cursor(), old(Cursor()))
    {
      ghost var t, a, b, clip := Text(), Offset(Buffer(), row, column), Cursor(), clipboard;
      assert Remove(t, b, b) == t;
      while !(cursorRow == row && cursorColumn == column)
        invariant Erasing(t, a, b, row, column, clip)
        decreases Cursor()
      {
        EraseOnce(t, a, b, row, column, clip);
      }
    }

    /** editor_type_backspace. */
    method Backspace()
      requires Valid()
      modifies this
      ensures Valid() && NoSelection() && clipboard == old(clipboard)
      ensures old(NoSelection()) ==> Erased(old(Buffer()), old(cursorRow), old(cursorColumn), Buffer(), cursorRow, cursorColumn)
      ensures !old(NoSelection()) ==>
        var a, b := Min(old(Cursor()), old(Select())), Max(old(Cursor()), old(Select()));
        b <= |old(Text())| && Text() == Remove(old(Text()), a, b) && Cursor() == a
    {
      if NoSelection() { EraseBack(cursorRow, cursorColumn); } else { DeleteSelection(); }
    }

    /** The first loop of editor_type_copy: how long the text between two positions is. */
    method Measure(startRow: nat, startColumn: nat, endRow: nat, endColumn: nat) returns (length: nat)
      requires Valid() && Inside(startRow, startColumn) && Inside(endRow, endColumn)
      requires Offset(Buffer(), startRow, startColumn) <= Offset(Buffer(), endRow, endColumn)
      ensures length == Offset(Buffer(), endRow, endColumn) - Offset(Buffer(), startRow, startColumn)
    {
      var row, column := startRow, startColumn;
      length := 0;
      OffsetOrder(Buffer(), endRow, endColumn, row, column);
      while Lt(row, column, endRow, endColumn)
        invariant Inside(row, column) && (Lt(row, column, endRow, endColumn) || (row == endRow && column == endColumn))
        invariant Offset(Buffer(), row, column) == Offset(Buffer(), startRow, startColumn) + length
        decreases endRow - row, endColumn - column
      {
        RowAt(row);
        if row == endRow {
          length := length + (endColumn - column);
          column := endColumn;
        } else {
          OffsetNext(Buffer(), row);
          length := length + (lines[row].used - column) + 1;
          column, row := 0, row + 1;
        }
      }
    }

    /** The second loop of editor_type_copy: the text between two positions, row by row. */
    method Collect(startRow: nat, startColumn: nat, endRow: nat, endColumn: nat, length: nat) returns (clip: Row)
      requires Valid() && Inside(startRow, startColumn) && Inside(endRow, endColumn)
      requires Offset(Buffer(), endRow, endColumn) == Offset(Buffer(), startRow, startColumn) + length <= |Text()|
      ensures clip == Text()[Offset(Buffer(), startRow, startColumn)..Offset(Buffer(), endRow, endColumn)] + [NUL]
    {
      clip := seq(length + 1, i => NUL);
      var row: nat, column: nat, offset: nat := startRow, startColumn, 0;
      ghost var a, rows := Offset(Buffer(), startRow, startColumn), Buffer();
      OffsetOrder(rows, endRow, endColumn, row, column);
      while Lt(row, column, endRow, endColumn)
        invariant Gathers(rows, a, row, column, offset, endRow, endColumn, length, clip)
        decreases endRow - row, endColumn - column
      {
        clip, row, column, offset := GatherStep(clip, row, column, offset, endRow, endColumn, length, a);
      }
      clip := clip[length := NUL];
    }

    /** One row of that text. */
    method GatherStep(clip: Row, row: nat, column: nat, offset: nat, endRow: nat, endColumn: nat, ghost length: nat, ghost a: nat)
      returns (clip': Row, r: nat, c: nat, o: nat)
      requires Valid() && Gathers(Buffer(), a, row, column, offset, endRow, endColumn, length, clip)
      requires Lt(row, column, endRow, endColumn)
      ensures Gathers(Buffer(), a, r, c, o, endRow, endColumn, length, clip')
      ensures r <= endRow && (r == row + 1 || (r == row == endRow && column < c == endColumn))
    {
      if row == endRow {
        r, c := row, endColumn;
        clip', o := GatherEnd(clip, row, column, offset, endColumn, length, a);
      } else {
        r, c := row + 1, 0;
        clip', o := GatherRow(clip, row, column, offset, endRow, endColumn, length, a);
      }
    }

    method GatherEnd(clip: Row, row: nat, column: nat, offset: nat, endColumn: nat, ghost length: nat, ghost a: nat) returns (clip': Row, o: nat)
      requires Valid() && Gathers(Buffer(), a, row, column, offset, row, endColumn, length, clip) && column <= endColumn
      ensures Gathers(Buffer(), a, row, endColumn, o, row, endColumn, length, clip')
    {
      RowAt(row);
      var part := lines[row].data[column..endColumn];
      SliceOfUsed(lines[row], column, endColumn);
      GathersEnd(Buffer(), a, row, column, offset, endColumn, length, clip, part);
      clip', o := Put(clip, offset, part), offset + |part|;
    }

    method GatherRow(clip: Row, row: nat, column: nat, offset: nat, ghost endRow: nat, ghost endColumn: nat, ghost length: nat, ghost a: nat)
      returns (clip': Row, o: nat)
      requires Valid() && Gathers(Buffer(), a, row, column, offset, endRow, endColumn, length, clip) && row < endRow
      ensures Gathers(Buffer(), a, row + 1, 0, o, endRow, endColumn, length, clip')
    {
      RowAt(row);
      var part := lines[row].data[column..lines[row].used] + [NEWLINE];
      SliceOfUsed(lines[row], column, lines[row].used);
      GathersRow(Buffer(), a, row, column, offset, endRow, endColumn, length, clip, part);
      clip', o := Put(clip, offset, part), offset + |part|;
    }

    /** editor_type_copy: the clipboard is the selected stretch of the text, ended by a NUL. */
    method Copy()
      requires Valid()
      modifies this`clipboard
      ensures old(NoSelection()) ==> clipboard == old(clipboard)
      ensures !NoSelection() ==> var a, b := Min(Cursor(), Select()), Max(Cursor(), Select());
        b <= |Text()| && clipboard == Text()[a..b] + [NUL]
    {
      if NoSelection() { return; }
      OffsetOrder(Buffer(), selectRow, selectColumn, cursorRow, cursorColumn);
      OffsetOrder(Buffer(), cursorRow, cursorColumn, selectRow, selectColumn);
      if Lt(selectRow, selectColumn, cursorRow, cursorColumn) {
        var length := Measure(selectRow, selectColumn, cursorRow, cursorColumn);
        clipboard := Collect(selectRow, selectColumn, cursorRow, cursorColumn, length);
      } else {
        var length := Measure(cursorRow, cursorColumn, selectRow, selectColumn);
        clipboard := Collect(cursorRow, cursorColumn, selectRow, selectColumn, length);
      }
    }

    /** editor_type_cut. */
    method Cut()
      requires Valid()
      modifies this
      ensures Valid() && NoSelection()
      ensures old(NoSelection()) ==> clipboard == old(clipboard) && Text() == old(Text()) && Cursor() == old(Cursor())
      ensures !old(NoSelection()) ==>
        var a, b := Min(old(Cursor()), old(Select())), Max(old(Cursor()), old(Select()));
        && b <= |old(Text())| && clipboard == old(Text())[a..b] + [NUL]
        && Text() == Remove(old(Text()), a, b) && Cursor() == a
    {
      if NoSelection() { return; }
      Copy();
      DeleteSelection();
    }

    /** editor_type_paste: the clipboard up to its first NUL replaces the selection. */
    method Paste()
      requires Valid()
      modifies this
      ensures Valid() && clipboard == old(clipboard)
      ensures var a, b := Min(old(Cursor()), old(Select())), Max(old(Cursor()), old(Select()));
        && b <= |old(Text())| && Text() == Insert(Remove(old(Text()), a, b), a, Upto(clipboard))
        && Cursor() == a + |Upto(clipboard)|
    {
      OffsetOrder(Buffer(), selectRow, selectColumn, cursorRow, cursorColumn);
      OffsetOrder(Buffer(), cursorRow, cursorColumn, selectRow, selectColumn);
      ghost var a, b := Min(Cursor(), Select()), Max(Cursor(), Select());
      if NoSelection() {
        assert Remove(Text(), a, b) == Text();
      } else {
        DeleteSelection();
      }
      TypeClipboard();
    }

    method TypeClipboard()
      requires Valid() && Cursor() <= |Text()|
      modifies this
      ensures Valid() && clipboard == old(clipboard)
      ensures Text() == Insert(old(Text()), old(Cursor()), Upto(clipboard)) && Cursor() == old(Cursor()) + |Upto(clipboard)|
    {
      ghost var t, a := Text(), Cursor();
      var i: nat := 0;
      assert Insert(t, a, []) == t && clipboard[..0] == [] && clipboard[0..] == clipboard;
      while i < |clipboard| && clipboard[i] != NUL
        invariant Valid() && clipboard == old(clipboard) && i <= |clipboard|
        invariant Cursor() == a + i <= |Text()| && Text() == Insert(t, a, clipboard[..i])
        invariant Upto(clipboard) == clipboard[..i] + Upto(clipboard[i..])
      {
        InsertMore(t, a, clipboard, i);
        if clipboard[i] == NEWLINE { TypeNewline(); } else { TypeCharacter(clipboard[i]); }
        i := i + 1;
      }
    }

    /**
     Cut, then paste. A selection comes back exactly when it holds no NUL; without one
     the old clipboard is pasted.
     */
    method CutPaste()
      requires Valid()
      modifies this
      ensures Valid()
      ensures old(NoSelection()) ==>
        old(Cursor()) <= |old(Text())| && Text() == Insert(old(Text()), old(Cursor()), Upto(old(clipboard)))
      ensures !old(NoSelection()) ==>
        var a, b := Min(old(Cursor()), old(Select())), Max(old(Cursor()), old(Select()));
        b <= |old(Text())| && (Text() == old(Text()) <==> NUL !in old(Text())[a..b])
    {
      OffsetOrder(Buffer(), selectRow, selectColumn, cursorRow, cursorColumn);
      OffsetOrder(Buffer(), cursorRow, cursorColumn, selectRow, selectColumn);
      ghost var t, a, b := Text(), Min(Cursor(), Select()), Max(Cursor(), Select());
      CutPasteRestores(t, a, b);
      Cut();
      ghost var c := Cursor();
      Paste();
      assert Remove(old(Text()), c, c) == old(Text()) || !old(NoSelection());
      assert old(NoSelection()) || Remove(Remove(t, a, b), a, a) == Remove(t, a, b);
    }
  }

  /** A NUL typed, selected, cut and pasted is gone. */
  method LosesNul() returns (e: Editor)
    ensures fresh(e) && e.Valid() && e.Text() != [NUL, NEWLINE]
  {
    e := new Editor();
    e.TypeCharacter(NUL);
    assert e.Text() == [NUL, NEWLINE];
    e.selectRow, e.selectColumn := 0, 0;
    e.CutPaste();
  }
}
