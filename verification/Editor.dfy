/** The full-screen editor of user/edit.c: a fixed grid of characters with line lengths, shifted in place by each
    key, refining one flat text with a cursor. */
module Editor {
  import opened Text
  import opened Document

  const TEXTROWS := 24

  class Edit {
    const line: array2<char>
    const llen: array<int>
    var nlines: int
    var cx: int
    var cy: int
    var top: int
    var dirty: bool
    var file: string                 // what is on disk
    ghost var rows: seq<string>      // the lines

    /** Row `i` of the grid holds `s`. */
    ghost predicate RowIs(i: nat, s: string)
      reads line, llen
    {
      i < line.Length0 && i < llen.Length && |s| <= line.Length1 && llen[i] == |s| && forall k :: 0 <= k < |s| ==>
          line[i, k] == s[k]
    }

    ghost predicate Sized()
      reads this
    {
      line.Length0 == MAXLINES && line.Length1 == MAXCOL && llen.Length == MAXLINES
    }

    /** The grid holds the lines, within the limits. */
    ghost predicate Holds()
      reads this, line, llen
    {
      && Sized() && 1 <= nlines == |rows| <= MAXLINES
      && (forall i {:trigger rows[i]} :: 0 <= i < nlines ==> |rows[i]| < MAXCOL && RowIs(i, rows[i]))
    }

    /** The cursor is in the text and its line on the screen. */
    ghost predicate Valid()
      reads this, line, llen
    {
      Holds() && 0 <= cy < nlines && 0 <= cx <= |rows[cy]| && 0 <= top <= cy < top + TEXTROWS
    }

    ghost function Content(): string
      reads this
    {
      Flat(rows)
    }

    /** Grid and cursor stand for this text and offset, and the file for what is on disk. */
    ghost predicate Shown(w: Work)
      reads this
    {
      Shows(rows, cy, cx, w) && w.Valid() && w.file == file
    }

    // ---------------------------------------------------------- shifting within a row

    /** The loop that moves the characters from `at` on one place up, which makes room for one. */
    method ShiftUp(i: nat, at: nat, ghost s: string)
      requires Sized() && RowIs(i, s) && at <= |s| < MAXCOL - 1
      modifies line
      ensures forall k :: 0 <= k < at ==> line[i, k] == s[k]
      ensures forall k :: at < k <= |s| ==> line[i, k] == s[k - 1]
      ensures forall r, k :: 0 <= r < MAXLINES && 0 <= k < MAXCOL && r != i ==> line[r, k] == old(line[r, k])
    {
      var k := llen[i];
      while k > at
        invariant at <= k <= |s|
        invariant forall j :: 0 <= j < k ==> line[i, j] == s[j]
        invariant forall j :: k < j <= |s| ==> line[i, j] == s[j - 1]
        invariant forall r, j :: 0 <= r < MAXLINES && 0 <= j < MAXCOL && r != i ==> line[r, j] == old(line[r, j])
      {
        line[i, k] := line[i, k - 1];
        k := k - 1;
      }
    }

    /** The loop that moves the characters after `at` one place down over it, which leaves `t`. */
    method ShiftDown(i: nat, at: nat, ghost s: string, ghost t: string)
      requires Sized() && RowIs(i, s) && at < |s| < MAXCOL && t == s[..at] + s[at + 1..]
      modifies line
      ensures forall k :: 0 <= k < |t| ==> line[i, k] == t[k]
      ensures forall r, k :: 0 <= r < MAXLINES && 0 <= k < MAXCOL && r != i ==> line[r, k] == old(line[r, k])
    {
      var k := at;
      while k < llen[i] - 1
        invariant at <= k <= |t| && llen[i] == |s|
        invariant forall j :: 0 <= j < k ==> line[i, j] == t[j]
        invariant forall j :: k <= j < |s| ==> line[i, j] == s[j]
        invariant forall r, j :: 0 <= r < MAXLINES && 0 <= j < MAXCOL && r != i ==> line[r, j] == old(line[r, j])
      {
        assert t[k] == s[k + 1];
        line[i, k] := line[i, k + 1];
        k := k + 1;
      }
    }

    /** Row `src`, terminator included, copied to row `dst`. */
    method CopyRow(dst: nat, src: nat, ghost s: string)
      requires Sized() && RowIs(src, s) && |s| < MAXCOL && dst < MAXLINES && dst != src
      modifies line, llen
      ensures RowIs(dst, s)
      ensures forall r, k :: 0 <= r < MAXLINES && 0 <= k < MAXCOL && r != dst ==> line[r, k] == old(line[r, k])
      ensures forall r :: 0 <= r < MAXLINES && r != dst ==> llen[r] == old(llen[r])
    {
      for k := 0 to llen[src] + 1
        invariant (forall r :: 0 <= r < MAXLINES ==> llen[r] == old(llen[r])) && forall j :: 0 <= j < |s| ==>
            line[src, j] == s[j]
        invariant forall j :: 0 <= j < k && j < |s| ==> line[dst, j] == s[j]
        invariant forall r, j :: 0 <= r < MAXLINES && 0 <= j < MAXCOL && r != dst ==> line[r, j] == old(line[r, j])
      {
        line[dst, k] := line[src, k];
      }
      llen[dst] := llen[src];
    }

    // ---------------------------------------------------------- keys that change the text

    /** Putting a character into line `i` at `at`. */
    method PutAt(i: nat, at: nat, c: char)
      requires Holds() && i < |rows| && at <= |rows[i]| < MAXCOL - 1
      modifies `dirty, `rows, line, llen
      ensures Holds() && nlines == old(nlines) && rows == old(rows)[i := old(rows)[i][..at] + [c] + old(rows)[i][at..]]
    {
      ghost var s := rows[i];
      ghost var l := s[..at] + [c] + s[at..];
      ShiftUp(i, at, s);
      line[i, at] := c;
      llen[i] := llen[i] + 1;
      line[i, llen[i]] := '\0';
      assert RowIs(i, l);
      rows := rows[i := l];
      dirty := true;
    }

    /** A printable character. In a full line it is refused and nothing changes. */
    method Insert(c: char, ghost w: Work, ghost w': Work)
      requires Valid() && Shown(w) && c != NL && w' == Next(w, CharKey(c))
      modifies `cx, `dirty, `rows, line, llen
      ensures Valid() && Shown(w')
    {
      assert RowIs(cy, rows[cy]);
      if llen[cy] < MAXCOL - 1 {
        PutAt(cy, cx, c);
        cx := cx + 1;
        CharShown(old(rows), cy, old(cx), w, c, rows, cx, w');
      } else {
        CharRefused(rows, cy, cx, w, c);
      }
    }

    /** Taking character `at` out of line `i`. */
    method RemoveAt(i: nat, at: nat)
      requires Holds() && i < |rows| && at < |rows[i]|
      modifies `dirty, `rows, line, llen
      ensures Holds() && nlines == old(nlines) && rows == old(rows)[i := old(rows)[i][..at] + old(rows)[i][at + 1..]]
    {
      ghost var s := rows[i];
      ghost var l := s[..at] + s[at + 1..];
      ShiftDown(i, at, s, l);
      llen[i] := llen[i] - 1;
      line[i, llen[i]] := '\0';
      assert RowIs(i, l);
      rows := rows[i := l];
      dirty := true;
    }

    /** The Delete key: the character at the cursor goes; at the end of a line nothing does. */
    method DeleteKey(ghost w: Work, ghost w': Work)
      requires Valid() && Shown(w) && w' == Next(w, DelKey)
      modifies `dirty, `rows, line, llen
      ensures Valid() && Shown(w')
    {
      assert RowIs(cy, rows[cy]);
      if cx < llen[cy] {
        RemoveAt(cy, cx);
        DelShown(old(rows), cy, cx, w, rows);
      } else {
        DelRefused(rows, cy, cx, w);
      }
    }

    // ---------------------------------------------------------- rows moved up and down

    /** The loop that moves the rows from `from` on one place down, which gives the lines of `ms` after it. */
    method RowsDown(from: nat, ghost ms: seq<string>)
      requires Holds() && 0 < from <= nlines < MAXLINES && |ms| == nlines + 1
      requires forall i {:trigger ms[i]} :: from < i <= nlines ==> ms[i] == rows[i - 1]
      modifies line, llen
      ensures forall r, k :: 0 <= r < from && 0 <= k < MAXCOL ==> line[r, k] == old(line[r, k])
      ensures forall r :: 0 <= r < from ==> llen[r] == old(llen[r])
      ensures forall i {:trigger ms[i]} :: from < i <= nlines ==> RowIs(i, ms[i])
    {
      var i := nlines;
      while i > from
        invariant from <= i <= nlines
        invariant forall r, k :: 0 <= r < from && 0 <= k < MAXCOL ==> line[r, k] == old(line[r, k])
        invariant forall r :: 0 <= r < from ==> llen[r] == old(llen[r])
        invariant forall r {:trigger rows[r]} :: from <= r < i ==> RowIs(r, rows[r])
        invariant forall r {:trigger ms[r]} :: i < r <= nlines ==> RowIs(r, ms[r])
        invariant RowIs(from - 1, rows[from - 1])
      {
        assert ms[i] == rows[i - 1] && |rows[i - 1]| < MAXCOL;
        CopyRow(i, i - 1, rows[i - 1]);
        i := i - 1;
      }
    }

    /** The loop that moves the rows after `from` one place up over it, which gives the lines of `ms` from there on. */
    method RowsUp(from: nat, ghost ms: seq<string>)
      requires Sized() && 0 < from < nlines == |rows| <= MAXLINES && |ms| == nlines - 1
      requires forall i {:trigger ms[i]} :: from <= i < nlines - 1 ==> ms[i] == rows[i + 1] && |ms[i]| < MAXCOL
      requires forall i {:trigger rows[i]} :: from < i < nlines ==> RowIs(i, rows[i])
      modifies line, llen
      ensures forall i, k :: 0 <= i < from && 0 <= k < MAXCOL ==> line[i, k] == old(line[i, k])
      ensures forall i :: 0 <= i < from ==> llen[i] == old(llen[i])
      ensures forall i {:trigger ms[i]} :: from <= i < nlines - 1 ==> RowIs(i, ms[i])
    {
      var i := from;
      while i < nlines - 1
        invariant from <= i <= nlines - 1
        invariant forall r, k :: 0 <= r < from && 0 <= k < MAXCOL ==> line[r, k] == old(line[r, k])
        invariant forall r :: 0 <= r < from ==> llen[r] == old(llen[r])
        invariant forall r {:trigger ms[r]} :: from <= r < i ==> RowIs(r, ms[r])
        invariant forall r {:trigger rows[r]} :: i < r < nlines ==> RowIs(r, rows[r])
      {
        assert ms[i] == rows[i + 1];
        CopyRow(i, i + 1, rows[i + 1]);
        i := i + 1;
      }
    }

    /** The loop that copies the characters of row `src` from `at` on to row `dst` from `to` on. */
    method CopyPart(dst: nat, to: nat, src: nat, at: nat, ghost s: string)
      requires Sized() && RowIs(src, s) && at <= |s| && dst < MAXLINES && dst != src && to + |s| - at <= MAXCOL
      modifies line
      ensures forall k :: to <= k < to + |s| - at ==> line[dst, k] == s[at + (k - to)]
      ensures forall r, k :: 0 <= r < MAXLINES && 0 <= k < MAXCOL && (r != dst || k < to) ==>
          line[r, k] == old(line[r, k])
    {
      var n := llen[src] - at;
      for k := 0 to n
        invariant llen[src] == |s| && forall j :: to <= j < to + k ==> line[dst, j] == s[at + (j - to)]
        invariant forall r, j :: 0 <= r < MAXLINES && 0 <= j < MAXCOL && (r != dst || j < to) ==>
            line[r, j] == old(line[r, j])
      {
        line[dst, to + k] := line[src, at + k];
      }
    }

    /** scroll_fix: the cursor's line is brought on the screen. */
    method ScrollFix()
      requires 0 <= cy
      modifies `top
      ensures 0 <= top <= cy < top + TEXTROWS
      ensures 0 <= old(top) <= cy < old(top) + TEXTROWS ==> top == old(top)
    {
      if cy < top { top := cy; }
      if cy >= top + TEXTROWS { top := cy - TEXTROWS + 1; }
      if top < 0 { top := 0; }
    }

    /** Enter: the line is split at the cursor. With 1023 lines it is refused and nothing changes. */
    method Enter(ghost w: Work, ghost w': Work)
      requires Valid() && Shown(w) && w' == Next(w, EnterKey)
      modifies `nlines, `cx, `cy, `top, `dirty, `rows, line, llen
      ensures Valid() && Shown(w')
    {
      if nlines < MAXLINES - 1 {
        Split(w, w');
      } else {
        EnterRefused(rows, cy, cx, w);
      }
      ScrollFix();
    }

    method Split(ghost w: Work, ghost w': Work)
      requires Valid() && Shown(w) && w' == Next(w, EnterKey) && nlines < MAXLINES - 1
      modifies `nlines, `cx, `cy, `dirty, `rows, line, llen
      ensures Holds() && Shown(w')
    {
      SplitRows();
      EnterShown(old(rows), old(cy), old(cx), w, rows, cy, w');
    }

    /** The grid after Enter: everything below moves down, the tail of the line goes to the next row. */
    method SplitRows()
      requires Valid() && nlines < MAXLINES - 1
      modifies `nlines, `cx, `cy, `dirty, `rows, line, llen
      ensures Holds() && nlines == old(nlines) + 1 && cy == old(cy) + 1 && cx == 0
      ensures rows == SplitAt(old(rows), old(cy), old(cx))
    {
      ghost var ms := SplitAt(rows, cy, cx);
      SplitEach(rows, cy, cx, ms);
      RowsDown(cy + 1, ms);
      SplitTail(rows[cy]);
      nlines, cy, cx, dirty := nlines + 1, cy + 1, 0, true;
      rows := ms;
    }

    /** The tail of the cursor's line goes to the next row. */
    method SplitTail(ghost s: string)
      requires Sized() && 0 <= cy < MAXLINES - 1 && RowIs(cy, s) && 0 <= cx <= |s| < MAXCOL
      modifies line, llen
      ensures RowIs(cy, s[..cx]) && RowIs(cy + 1, s[cx..])
      ensures forall r, k :: 0 <= r < MAXLINES && 0 <= k < MAXCOL && r != cy && r != cy + 1 ==>
          line[r, k] == old(line[r, k])
      ensures forall r :: 0 <= r < MAXLINES && r != cy && r != cy + 1 ==> llen[r] == old(llen[r])
    {
      var tail := llen[cy] - cx;
      CopyPart(cy + 1, 0, cy, cx, s);
      line[cy + 1, tail] := '\0';
      llen[cy + 1] := tail;
      line[cy, cx] := '\0';
      llen[cy] := cx;
    }

    /** Backspace: the character before the cursor goes, a newline included. A join that would make a line too long
        is refused and nothing changes. */
    method Backspace(ghost w: Work, ghost w': Work)
      requires Valid() && Shown(w) && w' == Next(w, BackKey)
      modifies `nlines, `cx, `cy, `top, `dirty, `rows, line, llen
      ensures Valid() && Shown(w')
    {
      if cx > 0 {
        RemoveAt(cy, cx - 1);
        cx := cx - 1;
        BackShown(old(rows), cy, old(cx), w, rows, cx, w');
      } else if cy > 0 {
        Join(w, w');
      } else {
        BackRefused(rows, cy, w);
      }
      ScrollFix();
    }

    /** Backspace at the start of a line. */
    method Join(ghost w: Work, ghost w': Work)
      requires Valid() && Shown(w) && w' == Next(w, BackKey) && cx == 0 && cy > 0
      modifies `nlines, `cx, `cy, `dirty, `rows, line, llen
      ensures Holds() && Shown(w')
    {
      var p := cy - 1;
      var pl := llen[p];
      assert RowIs(p, rows[p]) && RowIs(cy, rows[cy]);
      if pl + llen[cy] < MAXCOL - 1 {
        JoinRows(p, pl);
        JoinShown(old(rows), old(cy), w, rows, cy, cx, w');
      } else {
        BackRefused(rows, cy, w);
      }
    }

    /** Row `src` appended to row `dst`. */
    method AppendRow(dst: nat, src: nat, ghost d: string, ghost s: string)
      requires Sized() && dst != src && RowIs(dst, d) && RowIs(src, s) && |d| + |s| < MAXCOL
      modifies line, llen
      ensures RowIs(dst, d + s)
      ensures forall r, k :: 0 <= r < MAXLINES && 0 <= k < MAXCOL && r != dst ==> line[r, k] == old(line[r, k])
      ensures forall r :: 0 <= r < MAXLINES && r != dst ==> llen[r] == old(llen[r])
    {
      CopyPart(dst, llen[dst], src, 0, s);
      llen[dst] := llen[dst] + llen[src];
      line[dst, llen[dst]] := '\0';
    }

    /** The grid after a join: the line is appended to the one before, everything below moves up. */
    method JoinRows(p: nat, pl: nat)
      requires Valid() && cy == p + 1 && pl == |rows[p]| && pl + |rows[cy]| < MAXCOL - 1
      modifies `nlines, `cx, `cy, `dirty, `rows, line, llen
      ensures Holds() && nlines == old(nlines) - 1 && cy == p && cx == pl
      ensures rows == JoinAt(old(rows), p + 1)
    {
      ghost var ms := JoinAt(rows, cy);
      ghost var s := rows[cy];
      JoinEach(rows, cy, ms);
      AppendRow(p, cy, rows[p], s);
      RowsUp(cy, ms);
      nlines, cy, cx, dirty := nlines - 1, p, pl, true;
      rows := ms;
    }

    // ---------------------------------------------------------- keys that move

    /** What is done after every arrow: the column is cut to the line and the line brought on the screen. */
    method Settle()
      requires Holds() && 0 <= cy < nlines && 0 <= cx
      modifies `cx, `top
      ensures Valid() && cx == if old(cx) > |rows[cy]| then |rows[cy]| else old(cx)
    {
      if cx > llen[cy] { cx := llen[cy]; }
      ScrollFix();
    }

    /** Left and right move by one in the text, over the ends of lines, and stop at its ends. */
    method Left(ghost w: Work, ghost w': Work)
      requires Valid() && Shown(w) && w' == Next(w, LeftKey)
      modifies `cx, `cy, `top
      ensures Valid() && Shown(w')
    {
      if cx > 0 {
        cx := cx - 1;
      } else if cy > 0 {
        cy := cy - 1;
        cx := llen[cy];
        assert RowIs(cy, rows[cy]);
      }
      LeftShown(rows, old(cy), old(cx), w, cy, cx);
      Settle();
    }

    method Right(ghost w: Work, ghost w': Work)
      requires Valid() && Shown(w) && w' == Next(w, RightKey)
      modifies `cx, `cy, `top
      ensures Valid() && Shown(w')
    {
      assert RowIs(cy, rows[cy]);
      if cx < llen[cy] {
        cx := cx + 1;
      } else if cy < nlines - 1 {
        cy := cy + 1;
        cx := 0;
      }
      RightShown(rows, old(cy), old(cx), w, cy, cx);
      Settle();
    }

    /** Up and down keep the column as far as the other line has it. */
    method Up(ghost w: Work, ghost w': Work)
      requires Valid() && Shown(w) && w' == Next(w, UpKey)
      modifies `cx, `cy, `top
      ensures Valid() && Shown(w')
    {
      if cy > 0 { cy := cy - 1; }
      Settle();
      UpShown(rows, old(cy), old(cx), w, cy, cx);
    }

    method Down(ghost w: Work, ghost w': Work)
      requires Valid() && Shown(w) && w' == Next(w, DownKey)
      modifies `cx, `cy, `top
      ensures Valid() && Shown(w')
    {
      if cy < nlines - 1 { cy := cy + 1; }
      Settle();
      DownShown(rows, old(cy), old(cx), w, cy, cx);
    }

    /** Control-A and Control-E. */
    method LineEnd(start: bool, ghost w: Work, ghost w': Work)
      requires Valid() && Shown(w) && w' == Next(w, if start then HomeKey else EndKey)
      modifies `cx
      ensures Valid() && Shown(w')
    {
      assert RowIs(cy, rows[cy]);
      EndsShown(rows, cy, cx, w);
      cx := if start then 0 else llen[cy];
    }

    // ---------------------------------------------------------- files

    constructor (file: string)
      ensures Valid() && rows == [""] && this.file == file && fresh(line) && fresh(llen)
    {
      this.file := file;
      line := new char[MAXLINES, MAXCOL];
      llen := new int[MAXLINES];
      nlines, cx, cy, top, dirty := 1, 0, 0, 0, false;
      rows := [""];
      new;
      llen[0] := 0;
    }

    /** The characters of a row. */
    method RowText(i: nat, ghost s: string) returns (l: string)
      requires RowIs(i, s)
      ensures l == s
    {
      l := "";
      for k := 0 to llen[i]
        invariant |l| == k && l == s[..k]
      {
        l := l + [line[i, k]];
      }
    }

    /** save: the file becomes the lines, with a newline after each but the last. */
    method Save()
      requires Valid()
      modifies `dirty, `file
      ensures Valid() && file == Content() && !dirty
    {
      var out := "";
      for i := 0 to nlines
        invariant out == if i < nlines then Before(rows, i) else Content()
      {
        var l := RowText(i, rows[i]);
        SavedLine(rows, i, out);
        out := out + l;
        if i < nlines - 1 { out := out + [NL]; }
      }
      file := out;
      dirty := false;
    }

    /** load, however the file is cut into reads. */
    method Load(chunks: seq<string>)
      requires Sized()
      modifies this, line, llen
      ensures Valid() && file == old(file) && Shown(Work(Flat(Loaded(Concat(chunks, |chunks|))), 0, file))
    {
      var l, c := 0, 0;
      rows := [""];
      for j := 0 to |chunks|
        invariant Sized() && Filling(l, c) && rows == Loaded(Concat(chunks, j)) && file == old(file)
      {
        l, c := LoadChunk(chunks[j], l, c, Concat(chunks, j));
      }
      Finish(l, c, Concat(chunks, |chunks|));
    }

    /** The end of load, and the cursor at the start. */
    method Finish(l: int, c: int, ghost f: string)
      requires Filling(l, c) && rows == Loaded(f)
      modifies `nlines, `cx, `cy, `top, `dirty, line, llen
      ensures Valid() && Shown(Work(Flat(Loaded(f)), 0, file))
    {
      llen[l] := c;
      line[l, c] := '\0';
      nlines := l + 1;
      cx, cy, top, dirty := 0, 0, 0, false;
      LoadedOneLine(f);
    }

    /** The loop over one read. */
    method LoadChunk(chunk: string, l: int, c: int, ghost f: string) returns (l': int, c': int)
      requires Filling(l, c) && rows == Loaded(f)
      modifies `rows, line, llen
      ensures Filling(l', c') && rows == Loaded(f + chunk)
    {
      l', c' := l, c;
      ghost var g := f;
      for i := 0 to |chunk|
        invariant Filling(l', c') && rows == Loaded(g) && g == f + chunk[..i]
      {
        LoadedNext(g, chunk[i]);
        l', c' := TakeChar(l', c', chunk[i]);
        g := g + [chunk[i]];
      }
      assert g == f + chunk;
    }

    /** The lines up to row `l`, of which `c` characters are in the grid already. */
    ghost predicate Filling(l: int, c: int)
      reads this, line, llen
    {
      && Sized() && 0 <= l < MAXLINES && |rows| == l + 1 && 0 <= c == |rows[l]| < MAXCOL
      && (forall i {:trigger rows[i]} :: 0 <= i < l ==> |rows[i]| < MAXCOL && RowIs(i, rows[i]))
      && (forall k :: 0 <= k < c ==> line[l, k] == rows[l][k])
    }

    /** One character of load. */
    method TakeChar(l: int, c: int, ch: char) returns (l': int, c': int)
      requires Filling(l, c)
      modifies `rows, line, llen
      ensures Filling(l', c') && rows == Took(old(rows), ch)
    {
      l', c' := l, c;
      rows := Took(rows, ch);
      if ch == NL {
        llen[l] := c;
        line[l, c] := '\0';
        if l < MAXLINES - 1 { l' := l + 1; }
        c' := 0;
        line[l', 0] := '\0';
      } else if c < MAXCOL - 1 {
        line[l, c] := ch;
        c' := c + 1;
      }
    }

    // ---------------------------------------------------------- a session

    /** One key: text, cursor and file become what the key makes of them. */
    method Press(k: Key, ghost w: Work, ghost w': Work)
      requires Valid() && Shown(w) && Printable(k) && w' == Next(w, k)
      modifies `nlines, `cx, `cy, `top, `dirty, `file, `rows, line, llen
      ensures Valid() && Shown(w')
    {
      match k {
        case CharKey(c) => Insert(c, w, w');
        case EnterKey => Enter(w, w');
        case BackKey => Backspace(w, w');
        case DelKey => DeleteKey(w, w'); Settle();
        case LeftKey => Left(w, w');
        case RightKey => Right(w, w');
        case UpKey => Up(w, w');
        case DownKey => Down(w, w');
        case HomeKey => LineEnd(true, w, w');
        case EndKey => LineEnd(false, w, w');
        case SaveKey => Save();
        case NoKey =>
      }
    }

    /** Whatever is typed, the grid holds the text that the keys make of one string, the cursor is where they put it and
        on the screen, and no write is outside the grid. */
    method Session(input: string, ghost w: Work)
      requires Valid() && Shown(w)
      modifies `nlines, `cx, `cy, `top, `dirty, `file, `rows, line, llen
      ensures Valid() && Shown(Fold(w, Keys(input)))
    {
      var rest := input;
      ghost var now := w;
      while rest != "" && !Quits(rest[0])
        invariant Valid() && Shown(now) && Fold(now, Keys(rest)) == Fold(w, Keys(input))
        decreases |rest|
      {
        var (k, n) := Decode(rest);
        ghost var ks := Keys(rest);
        assert ks[0] == k && ks[1..] == Keys(rest[n..]);
        Press(k, now, Next(now, k));
        now := Next(now, k);
        rest := rest[n..];
      }
    }
  }

  /** The editor run on a file, however it is read: what is on disk at the end is what the keys make of the text it
      began with, which is the file itself if and only if that is within the limits. */
  method EditFile(chunks: seq<string>, input: string) returns (file: string)
    ensures var f := Concat(chunks, |chunks|); file == Fold(Work(Flat(Loaded(f)), 0, f), Keys(input)).file
    ensures var f := Concat(chunks, |chunks|); Flat(Loaded(f)) == f <==> Fits(Lines(f))
  {
    ghost var f := Concat(chunks, |chunks|);
    var all := "";
    for j := 0 to |chunks|
      invariant all == Concat(chunks, j)
    {
      all := all + chunks[j];
    }
    var e := new Edit(all);
    e.Load(chunks);
    e.Session(input, Work(Flat(Loaded(f)), 0, f));
    SaveLoad(f);
    file := e.file;
  }

  /** The lines of a split one by one. */
  lemma SplitEach(ls: seq<string>, cy: nat, cx: nat, ms: seq<string>)
    requires cy < |ls| && cx <= |ls[cy]| && ms == SplitAt(ls, cy, cx) && forall i {:trigger ls[i]} :: 0 <= i < |ls| ==>
        |ls[i]| < MAXCOL
    ensures |ms| == |ls| + 1 && ms[cy] == ls[cy][..cx] && ms[cy + 1] == ls[cy][cx..]
    ensures forall i {:trigger ms[i]} :: 0 <= i < |ms| && i != cy && i != cy + 1 ==>
        ms[i] == if i < cy then ls[i] else ls[i - 1]
    ensures forall i {:trigger ms[i]} :: 0 <= i < |ms| ==> |ms[i]| < MAXCOL
  {
  }

  /** The lines of a join one by one. */
  lemma JoinEach(ls: seq<string>, cy: nat, ms: seq<string>)
    requires 0 < cy < |ls| && ms == JoinAt(ls, cy)
    ensures |ms| == |ls| - 1 && ms[cy - 1] == ls[cy - 1] + ls[cy]
    ensures forall i {:trigger ms[i]} :: 0 <= i < |ms| && i != cy - 1 ==>
        ms[i] == if i < cy - 1 then ls[i] else ls[i + 1]
  {
  }

  /** The chunks read so far. */
  function Concat(chunks: seq<string>, n: nat): string
    requires n <= |chunks|
  {
    if n == 0 then "" else Concat(chunks, n - 1) + chunks[n - 1]
  }

  lemma LoadedNext(f: string, c: char)
    ensures Loaded(f + [c]) == Took(Loaded(f), c)
  {
    assert (f + [c])[..|f|] == f;
  }

  lemma SavedLine(ls: seq<string>, i: nat, out: string)
    requires i < |ls| && out == Before(ls, i)
    ensures if i + 1 < |ls| then out + ls[i] + [NL] == Before(ls, i + 1) else out + ls[i] == Flat(ls)
  {
    var init := ls[..i + 1];
    Around(init, i);
    assert init[..i] == ls[..i] && Before(ls, i) + ls[i] + "" == Before(ls, i) + ls[i];
    assert i + 1 == |ls| ==> init == ls;
  }
}
