/** Text as lines and text as one string: what the editor of user/edit.c keeps, and what it is for. */
module Text {
  const NL := '\n'
  const MAXLINES := 1024
  const MAXCOL := 1024

  // ------------------------------------------------------------ lines and flat text

  /** The lines with a newline between each two, as save writes them. */
  function Flat(ls: seq<string>): string {
    if |ls| == 0 then [] else if |ls| == 1 then ls[0] else Flat(ls[..|ls| - 1]) + [NL] + ls[|ls| - 1]
  }

  /** What is before line `i`, its newlines included. */
  function Before(ls: seq<string>, i: nat): string
    requires i <= |ls|
  {
    if i == 0 then [] else Flat(ls[..i]) + [NL]
  }

  /** What is after line `i`, beginning with its newline. */
  function After(ls: seq<string>, i: nat): string
    requires i < |ls|
  {
    if i + 1 == |ls| then [] else [NL] + Flat(ls[i + 1..])
  }

  lemma Assoc(a: string, b: string, c: string)
    ensures a + b + c == a + (b + c)
  {
  }

  lemma {:induction false} FlatJoin(a: seq<string>, b: seq<string>)
    requires |a| > 0 && |b| > 0
    ensures Flat(a + b) == Flat(a) + [NL] + Flat(b)
    decreases |b|
  {
    if |b| == 1 {
      assert (a + b)[..|a + b| - 1] == a;
    } else {
      var c := b[..|b| - 1];
      assert (a + b)[..|a + b| - 1] == a + c;
      FlatJoin(a, c);
      Assoc(Flat(a) + [NL], Flat(c), [NL]);
      Assoc(Flat(a) + [NL], Flat(c) + [NL], b[|b| - 1]);
    }
  }

  /** The text from line `i` on. */
  lemma Onward(ls: seq<string>, i: nat)
    requires i < |ls|
    ensures Flat(ls[i..]) == ls[i] + After(ls, i)
  {
    if i + 1 < |ls| {
      assert ls[i..] == [ls[i]] + ls[i + 1..];
      FlatJoin([ls[i]], ls[i + 1..]);
      Assoc(ls[i], [NL], Flat(ls[i + 1..]));
    } else {
      assert ls[i..] == [ls[i]] && ls[i] + [] == ls[i];
    }
  }

  /** The text around line `i`. */
  lemma Around(ls: seq<string>, i: nat)
    requires i < |ls|
    ensures Flat(ls) == Before(ls, i) + ls[i] + After(ls, i)
  {
    Onward(ls, i);
    if i > 0 {
      assert ls == ls[..i] + ls[i..];
      FlatJoin(ls[..i], ls[i..]);
    } else {
      assert ls[0..] == ls && [] + ls[0] == ls[0];
    }
    Assoc(Before(ls, i), ls[i], After(ls, i));
  }

  /** A place in the lines as an offset in the text. */
  function Offset(ls: seq<string>, cy: nat, cx: nat): nat
    requires cy <= |ls|
  {
    |Before(ls, cy)| + cx
  }

  // ------------------------------------------------------------ the editing operations on flat text

  function Inserted(t: string, o: nat, c: char): string
    requires o <= |t|
  {
    t[..o] + [c] + t[o..]
  }

  function Deleted(t: string, o: nat): string
    requires o < |t|
  {
    t[..o] + t[o + 1..]
  }

  /** The text cut inside the middle one of three pieces. */
  lemma Cut(t: string, pre: string, l: string, post: string, x: nat)
    requires t == pre + l + post && x <= |l|
    ensures |pre| + x <= |t| && t[..|pre| + x] == pre + l[..x] && t[|pre| + x..] == l[x..] + post
  {
  }

  lemma InsertedInside(t: string, u: string, pre: string, l: string, post: string, x: nat, c: char, m: string)
    requires t == pre + l + post && x <= |l| && m == l[..x] + [c] + l[x..] && u == pre + m + post
    ensures |pre| + x <= |t| && u == Inserted(t, |pre| + x, c)
  {
    Cut(t, pre, l, post, x);
  }

  lemma DeletedInside(t: string, u: string, pre: string, l: string, post: string, x: nat, m: string)
    requires t == pre + l + post && x < |l| && m == l[..x] + l[x + 1..] && u == pre + m + post
    ensures |pre| + x < |t| && u == Deleted(t, |pre| + x)
  {
    Cut(t, pre, l, post, x);
    Cut(t, pre, l, post, x + 1);
  }

  lemma LineChanged(ls: seq<string>, i: nat, l: string)
    requires i < |ls|
    ensures Flat(ls[i := l]) == Before(ls, i) + l + After(ls, i) && Before(ls[i := l], i) == Before(ls, i)
  {
    var ms := ls[i := l];
    Around(ms, i);
    assert ms[..i] == ls[..i] && ms[i + 1..] == ls[i + 1..];
  }

  lemma LineAndChange(ls: seq<string>, i: nat, l: string, pre: string, post: string)
    requires i < |ls| && pre == Before(ls, i) && post == After(ls, i)
    ensures Flat(ls) == pre + ls[i] + post && Flat(ls[i := l]) == pre + l + post
  {
    Around(ls, i);
    LineChanged(ls, i, l);
  }

  /** A character typed into a line, which becomes `l`. */
  lemma CharInserted(ls: seq<string>, cy: nat, cx: nat, c: char, l: string)
    requires cy < |ls| && cx <= |ls[cy]| && l == ls[cy][..cx] + [c] + ls[cy][cx..]
    ensures Offset(ls, cy, cx) <= |Flat(ls)| && Flat(ls[cy := l]) == Inserted(Flat(ls), Offset(ls, cy, cx), c)
  {
    LineAndChange(ls, cy, l, Before(ls, cy), After(ls, cy));
    InsertedInside(Flat(ls), Flat(ls[cy := l]), Before(ls, cy), ls[cy], After(ls, cy), cx, c, l);
  }

  /** The character at a place taken out of its line, which becomes `l`. */
  lemma CharDeleted(ls: seq<string>, cy: nat, cx: nat, l: string)
    requires cy < |ls| && cx < |ls[cy]| && l == ls[cy][..cx] + ls[cy][cx + 1..]
    ensures Offset(ls, cy, cx) < |Flat(ls)| && Flat(ls[cy := l]) == Deleted(Flat(ls), Offset(ls, cy, cx))
  {
    LineAndChange(ls, cy, l, Before(ls, cy), After(ls, cy));
    DeletedInside(Flat(ls), Flat(ls[cy := l]), Before(ls, cy), ls[cy], After(ls, cy), cx, l);
  }

  /** A change of the line itself does not move its beginning. */
  lemma SameStart(ls: seq<string>, cy: nat, l: string, cx: nat)
    requires cy < |ls|
    ensures Offset(ls[cy := l], cy, cx) == Offset(ls, cy, cx)
  {
    assert ls[cy := l][..cy] == ls[..cy];
  }

  /** A line split at the cursor. */
  function SplitAt(ls: seq<string>, cy: nat, cx: nat): seq<string>
    requires cy < |ls| && cx <= |ls[cy]|
  {
    ls[..cy] + [ls[cy][..cx]] + [ls[cy][cx..]] + ls[cy + 1..]
  }

  /** The lines of a split one by one. */
  lemma SplitLines(ls: seq<string>, cy: nat, cx: nat)
    requires cy < |ls| && cx <= |ls[cy]|
    ensures var ms := SplitAt(ls, cy, cx);
      |ms| == |ls| + 1 && ms[..cy] == ls[..cy] && ms[cy] == ls[cy][..cx] && ms[cy + 1] == ls[cy][cx..] &&
          ms[cy + 2..] == ls[cy + 1..]
  {
  }

  lemma LineSplit(ls: seq<string>, ms: seq<string>, cy: nat, cx: nat)
    requires cy < |ls| && cx <= |ls[cy]| && ms == SplitAt(ls, cy, cx)
    ensures |ms| == |ls| + 1 && Offset(ls, cy, cx) <= |Flat(ls)|
    ensures Flat(ms) == Inserted(Flat(ls), Offset(ls, cy, cx), NL) && Offset(ms, cy + 1, 0) == Offset(ls, cy, cx) + 1
  {
    SplitLines(ls, cy, cx);
    UpToSplit(ls, ms, cy, cx);
    Around(ms, cy + 1);
    Around(ls, cy);
    SplitText(Flat(ls), Flat(ms), Before(ls, cy), ls[cy], After(ls, cy), cx);
  }

  lemma SplitText(t: string, u: string, pre: string, l: string, post: string, x: nat)
    requires t == pre + l + post && x <= |l| && u == pre + l[..x] + [NL] + l[x..] + post
    ensures |pre| + x <= |t| && u == Inserted(t, |pre| + x, NL) && |pre + l[..x] + [NL]| == |pre| + x + 1
  {
    Regroup(pre, l[..x], l[x..], post);
    InsertedInside(t, u, pre, l, post, x, NL, l[..x] + [NL] + l[x..]);
  }

  lemma UpToSplit(ls: seq<string>, ms: seq<string>, cy: nat, cx: nat)
    requires cy < |ls| && cx <= |ls[cy]| && |ms| == |ls| + 1 && ms[..cy] == ls[..cy] && ms[cy] == ls[cy][..cx] &&
        ms[cy + 2..] == ls[cy + 1..]
    ensures Before(ms, cy + 1) == Before(ls, cy) + ls[cy][..cx] + [NL] && After(ms, cy + 1) == After(ls, cy)
  {
    assert ms[..cy + 1] == ls[..cy] + [ls[cy][..cx]];
    if cy > 0 {
      FlatJoin(ls[..cy], [ls[cy][..cx]]);
    } else {
      assert ms[..1] == [ls[0][..cx]] && [] + ls[0][..cx] == ls[0][..cx];
    }
  }

  lemma Regroup(a: string, b: string, c: string, d: string)
    ensures a + b + [NL] + c + d == a + (b + [NL] + c) + d && |a + b + [NL]| == |a| + |b| + 1
  {
  }

  /** A line joined to the one before. */
  function JoinAt(ls: seq<string>, cy: nat): seq<string>
    requires 0 < cy < |ls|
  {
    ls[..cy - 1] + [ls[cy - 1] + ls[cy]] + ls[cy + 1..]
  }

  /** Joining undoes splitting. */
  lemma JoinIsUnsplit(ls: seq<string>, cy: nat)
    requires 0 < cy < |ls|
    ensures var ms := JoinAt(ls, cy);
        |ms| == |ls| - 1 && ms[cy - 1] == ls[cy - 1] + ls[cy] && SplitAt(ms, cy - 1, |ls[cy - 1]|) == ls
  {
    var ms := JoinAt(ls, cy);
    assert ms[cy - 1][..|ls[cy - 1]|] == ls[cy - 1] && ms[cy - 1][|ls[cy - 1]|..] == ls[cy];
    assert ms[..cy - 1] == ls[..cy - 1] && ms[cy..] == ls[cy + 1..];
    assert ls == ls[..cy - 1] + [ls[cy - 1]] + [ls[cy]] + ls[cy + 1..];
  }

  lemma Undone(t: string, o: nat, c: char)
    requires o <= |t|
    ensures |Inserted(t, o, c)| == |t| + 1 && Deleted(Inserted(t, o, c), o) == t
  {
  }

  lemma LinesJoined(ls: seq<string>, ms: seq<string>, cy: nat, x: nat)
    requires 0 < cy < |ls| && ms == JoinAt(ls, cy) && x == |ls[cy - 1]|
    ensures |ms| == |ls| - 1 && cy - 1 < |ms| && 0 < Offset(ls, cy, 0) <= |Flat(ls)|
    ensures Flat(ms) == Deleted(Flat(ls), Offset(ls, cy, 0) - 1) && Offset(ms, cy - 1, x) == Offset(ls, cy, 0) - 1
  {
    JoinIsUnsplit(ls, cy);
    LineSplit(ms, ls, cy - 1, x);
    Undone(Flat(ms), Offset(ms, cy - 1, x), NL);
  }

  // ------------------------------------------------------------ what a key does to text and cursor

  /** `c` has gone in at the cursor, which is behind it now. */
  predicate Typed(t0: string, o0: nat, t: string, o: nat, c: char) {
    o0 <= |t0| && t == Inserted(t0, o0, c) && o == o0 + 1
  }

  /** The character before the cursor has gone, and the cursor is where it was. */
  predicate Erased(t0: string, o0: nat, t: string, o: nat) {
    0 < o0 <= |t0| && t == Deleted(t0, o0 - 1) && o == o0 - 1
  }

  lemma TypedChar(ls: seq<string>, ms: seq<string>, cy: nat, cx: nat, c: char)
    requires cy < |ls| && cx <= |ls[cy]| && ms == ls[cy := ls[cy][..cx] + [c] + ls[cy][cx..]]
    ensures Typed(Flat(ls), Offset(ls, cy, cx), Flat(ms), Offset(ms, cy, cx + 1), c)
  {
    var l := ls[cy][..cx] + [c] + ls[cy][cx..];
    CharInserted(ls, cy, cx, c, l);
    SameStart(ls, cy, l, cx);
  }

  lemma TypedNewline(ls: seq<string>, ms: seq<string>, cy: nat, cx: nat)
    requires cy < |ls| && cx <= |ls[cy]| && ms == SplitAt(ls, cy, cx)
    ensures |ms| == |ls| + 1 && Typed(Flat(ls), Offset(ls, cy, cx), Flat(ms), Offset(ms, cy + 1, 0), NL)
  {
    LineSplit(ls, ms, cy, cx);
  }

  lemma ErasedChar(ls: seq<string>, ms: seq<string>, cy: nat, x: nat)
    requires cy < |ls| && x < |ls[cy]| && ms == ls[cy := ls[cy][..x] + ls[cy][x + 1..]]
    ensures Erased(Flat(ls), Offset(ls, cy, x + 1), Flat(ms), Offset(ms, cy, x))
  {
    var l := ls[cy][..x] + ls[cy][x + 1..];
    CharDeleted(ls, cy, x, l);
    SameStart(ls, cy, l, x);
  }

  lemma ErasedNewline(ls: seq<string>, ms: seq<string>, p: nat)
    requires p + 1 < |ls| && ms == JoinAt(ls, p + 1)
    ensures |ms| == |ls| - 1 && Erased(Flat(ls), Offset(ls, p + 1, 0), Flat(ms), Offset(ms, p, |ls[p]|))
  {
    LinesJoined(ls, ms, p + 1, |ls[p]|);
  }

  // ------------------------------------------------------------ moving

  /** The start of a line is one past the end of the line before. */
  lemma LineStart(ls: seq<string>, cy: nat)
    requires 0 < cy < |ls|
    ensures Offset(ls, cy, 0) == Offset(ls, cy - 1, |ls[cy - 1]|) + 1
  {
    var init := ls[..cy];
    Around(init, cy - 1);
    assert init[..cy - 1] == ls[..cy - 1];
  }

  // ------------------------------------------------------------ loading and saving

  /** The lines of a text. */
  function Lines(f: string): (r: seq<string>)
    ensures |r| > 0
  {
    if f == "" then [""]
    else
      var r := Lines(f[..|f| - 1]);
      if f[|f| - 1] == NL then r + [""] else r[|r| - 1 := r[|r| - 1] + [f[|f| - 1]]]
  }

  /** One character more read by load: a newline past the last line clears it, a character past the last column
      is dropped. */
  function Took(r: seq<string>, c: char): seq<string>
    requires |r| > 0
  {
    if c == NL then (if |r| < MAXLINES then r + [""] else r[|r| - 1 := ""])
    else if |r[|r| - 1]| < MAXCOL - 1 then r[|r| - 1 := r[|r| - 1] + [c]]
    else r
  }

  /** What load makes of a file. */
  function Loaded(f: string): (r: seq<string>)
    ensures 0 < |r| <= MAXLINES && forall i :: 0 <= i < |r| ==> |r[i]| < MAXCOL
  {
    if f == "" then [""] else Took(Loaded(f[..|f| - 1]), f[|f| - 1])
  }

  /** Within the editor's limits. */
  predicate Fits(ls: seq<string>) {
    |ls| <= MAXLINES && forall i :: 0 <= i < |ls| ==> |ls[i]| < MAXCOL
  }

  lemma FlatNext(r: seq<string>)
    requires |r| > 0
    ensures Flat(r + [""]) == Flat(r) + [NL]
  {
    assert (r + [""])[..|r|] == r;
  }

  lemma FlatLast(r: seq<string>, l: string)
    requires |r| > 0
    ensures Flat(r[|r| - 1 := l]) == Before(r, |r| - 1) + l
  {
    LineChanged(r, |r| - 1, l);
    assert Before(r, |r| - 1) + l + "" == Before(r, |r| - 1) + l;
  }

  lemma FlatMore(r: seq<string>, l: string)
    requires |r| > 0
    ensures Flat(r[|r| - 1 := r[|r| - 1] + l]) == Flat(r) + l
  {
    FlatLast(r, r[|r| - 1] + l);
    FlatLast(r, r[|r| - 1]);
    assert r[|r| - 1 := r[|r| - 1]] == r;
    Assoc(Before(r, |r| - 1), r[|r| - 1], l);
  }

  lemma {:induction false} FlatLines(f: string)
    ensures Flat(Lines(f)) == f
  {
    if f != "" {
      var g, c := f[..|f| - 1], f[|f| - 1];
      FlatLines(g);
      if c == NL { FlatNext(Lines(g)); } else { FlatMore(Lines(g), [c]); }
      assert g + [c] == f;
    }
  }

  /** Reading one more character makes the text longer by one or loses something. */
  lemma TookLength(r: seq<string>, c: char)
    requires |r| > 0
    ensures |Flat(Took(r, c))| <= |Flat(r)| + 1
    ensures |Flat(Took(r, c))| == |Flat(r)| + 1 ==>
        Took(r, c) == if c == NL then r + [""] else r[|r| - 1 := r[|r| - 1] + [c]]
  {
    if c == NL {
      if |r| < MAXLINES {
        FlatNext(r);
      } else {
        FlatLast(r, "");
        FlatLast(r, r[|r| - 1]);
        assert r[|r| - 1 := r[|r| - 1]] == r;
      }
    } else {
      FlatMore(r, [c]);
    }
  }

  lemma {:induction false} LoadedLength(f: string)
    ensures |Flat(Loaded(f))| <= |f|
    ensures |Flat(Loaded(f))| == |f| ==> Loaded(f) == Lines(f)
  {
    if f != "" {
      var g := f[..|f| - 1];
      LoadedLength(g);
      TookLength(Loaded(g), f[|f| - 1]);
    }
  }

  lemma {:induction false} LoadedFits(f: string)
    requires Fits(Lines(f))
    ensures Loaded(f) == Lines(f)
  {
    if f != "" {
      var g := f[..|f| - 1];
      var r, s := Lines(g), Lines(f);
      forall i | 0 <= i < |r| ensures |r[i]| <= |s[i]| {
      }
      LoadedFits(g);
    }
  }

  /** Saving what was loaded gives the file back if and only if it keeps within the limits: 1024 lines of at most
      1023 characters. */
  lemma SaveLoad(f: string)
    ensures Flat(Loaded(f)) == f <==> Fits(Lines(f))
  {
    FlatLines(f);
    LoadedLength(f);
    if Fits(Lines(f)) { LoadedFits(f); }
  }

  lemma {:induction false} LinesMore(f: string, l: string)
    requires NL !in l
    ensures Lines(f + l) == Lines(f)[|Lines(f)| - 1 := Lines(f)[|Lines(f)| - 1] + l]
    decreases |l|
  {
    var r := Lines(f);
    if l == "" {
      assert f + l == f && r[|r| - 1] + l == r[|r| - 1];
    } else {
      var m := l[..|l| - 1];
      LinesMore(f, m);
      assert (f + l)[..|f + l| - 1] == f + m;
      assert r[|r| - 1] + m + [l[|l| - 1]] == r[|r| - 1] + l;
    }
  }

  lemma LinesNext(f: string)
    ensures Lines(f + [NL]) == Lines(f) + [""]
  {
    assert (f + [NL])[..|f|] == f;
  }

  lemma LastSet(r: seq<string>, l: string)
    ensures (r + [""])[|r| := (r + [""])[|r|] + l] == r + [l]
  {
    assert "" + l == l;
  }

  lemma LinesJoin(t: string, r: seq<string>, l: string)
    requires Lines(t) == r && NL !in l
    ensures Lines(t + [NL] + l) == r + [l]
  {
    LinesNext(t);
    LinesMore(t + [NL], l);
    LastSet(r, l);
  }

  lemma {:induction false} LinesFlat(ls: seq<string>)
    requires |ls| > 0 && forall i :: 0 <= i < |ls| ==> NL !in ls[i]
    ensures Lines(Flat(ls)) == ls
  {
    var n := |ls| - 1;
    if n == 0 {
      OneLine(ls[0]);
      assert ls == [ls[0]];
    } else {
      var init := ls[..n];
      LinesFlat(init);
      LinesJoin(Flat(init), init, ls[n]);
      assert init + [ls[n]] == ls;
    }
  }

  lemma OneLine(l: string)
    requires NL !in l
    ensures Lines(l) == [l]
  {
    LinesMore("", l);
    assert "" + l == l && Lines("") == [""];
  }

  /** Loading what was saved gives the same lines back. */
  lemma LoadSave(ls: seq<string>)
    requires |ls| > 0 && Fits(ls) && forall i :: 0 <= i < |ls| ==> NL !in ls[i]
    ensures Loaded(Flat(ls)) == ls
  {
    LinesFlat(ls);
    LoadedFits(Flat(ls));
  }
}
