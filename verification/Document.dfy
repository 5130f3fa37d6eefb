/** What the editor of user/edit.c does, said of one string and an offset in it: no lines, no grid. */
module Document {
  import opened Text

  // ------------------------------------------------------------ keys

  datatype Key =
    | CharKey(c: char) | EnterKey | BackKey | DelKey | LeftKey | RightKey | UpKey | DownKey
    | HomeKey | EndKey | SaveKey | NoKey

  function Code(c: char): int { c as int }

  /** A printable character, the only kind that goes into the text. */
  predicate Printable(k: Key) {
    k.CharKey? ==> 32 <= Code(k.c) < 127
  }

  /** The key at the start of the input and how many characters it takes: an escape takes what follows it. */
  function Decode(input: string): (r: (Key, nat))
    requires input != ""
    ensures 0 < r.1 <= |input| && Printable(r.0)
  {
    var c := Code(input[0]);
    if c == 19 then (SaveKey, 1)
    else if c == 1 then (HomeKey, 1)
    else if c == 5 then (EndKey, 1)
    else if c == 13 || c == 10 then (EnterKey, 1)
    else if c == 127 || c == 8 then (BackKey, 1)
    else if c == 27 then Escape(input)
    else if 32 <= c < 127 then (CharKey(input[0]), 1)
    else (NoKey, 1)
  }

  function Escape(input: string): (r: (Key, nat))
    requires input != ""
    ensures 0 < r.1 <= |input| && !r.0.CharKey?
  {
    if |input| < 2 then (NoKey, 1)
    else if input[1] != '[' || |input| < 3 then (NoKey, 2)
    else match input[2]
      case 'A' => (UpKey, 3)
      case 'B' => (DownKey, 3)
      case 'C' => (RightKey, 3)
      case 'D' => (LeftKey, 3)
      case '3' => (DelKey, if |input| < 4 then 3 else 4)
      case _ => (NoKey, 3)
  }

  predicate Quits(c: char) {
    Code(c) == 17 || Code(c) == 24
  }

  /** The keys of an input, up to the one that quits. */
  function Keys(input: string): seq<Key> {
    if input == "" || Quits(input[0]) then [] else [Decode(input).0] + Keys(input[Decode(input).1..])
  }

  // ------------------------------------------------------------ places in a text

  /** The start of the line around offset `o`: after the newline before it, or the start of the text. */
  function Bol(t: string, o: nat): (b: nat)
    requires o <= |t|
    ensures b <= o
  {
    if o == 0 || t[o - 1] == NL then o else Bol(t, o - 1)
  }

  /** Its end: the newline at or after it, or the end of the text. */
  function Eol(t: string, o: nat): (e: nat)
    requires o <= |t|
    ensures o <= e <= |t|
    decreases |t| - o
  {
    if o == |t| || t[o] == NL then o else Eol(t, o + 1)
  }

  function Newlines(t: string): nat {
    if t == "" then 0 else Newlines(t[..|t| - 1]) + if t[|t| - 1] == NL then 1 else 0
  }

  function Least(a: nat, b: nat): nat { if a < b then a else b }

  // ------------------------------------------------------------ what a key does

  /** The text, the cursor in it, and what the file holds. */
  datatype Work = Work(text: string, at: nat, file: string)
  {
    predicate Valid() { at <= |text| }
  }

  /** One key. A character is refused if its line has 1023, a new line if there are 1023 of them, and a join if the line
      it makes would have more than 1022. */
  function Next(w: Work, k: Key): (w': Work)
    requires w.Valid()
    ensures w'.Valid()
  {
    var t, o := w.text, w.at;
    match k
    case CharKey(c) => if Eol(t, o) - Bol(t, o) < MAXCOL - 1 then w.(text := Inserted(t, o, c), at := o + 1) else w
    case EnterKey => if Newlines(t) + 1 < MAXLINES - 1 then w.(text := Inserted(t, o, NL), at := o + 1) else w
    case BackKey =>
      if o > 0 && (t[o - 1] != NL ||
          Eol(t, o) - Bol(t, o - 1) - 1 < MAXCOL - 1) then w.(text := Deleted(t, o - 1), at := o - 1) else w
    case DelKey => if o < |t| && t[o] != NL then w.(text := Deleted(t, o)) else w
    case LeftKey => if o > 0 then w.(at := o - 1) else w
    case RightKey => if o < |t| then w.(at := o + 1) else w
    case UpKey =>
      var b := Bol(t, o);
      if b == 0 then w else w.(at := Bol(t, b - 1) + Least(o - b, b - 1 - Bol(t, b - 1)))
    case DownKey =>
      var e := Eol(t, o);
      if e == |t| then w else w.(at := e + 1 + Least(o - Bol(t, o), Eol(t, e + 1) - (e + 1)))
    case HomeKey => w.(at := Bol(t, o))
    case EndKey => w.(at := Eol(t, o))
    case SaveKey => w.(file := t)
    case NoKey => w
  }

  /** Any number of keys. */
  function Fold(w: Work, ks: seq<Key>): (w': Work)
    requires w.Valid()
    ensures w'.Valid()
    decreases |ks|
  {
    if ks == [] then w else Fold(Next(w, ks[0]), ks[1..])
  }

  /** Backspace takes back the character that was accepted. */
  lemma TypedAndTakenBack(w: Work, c: char)
    requires w.Valid() && c != NL && Eol(w.text, w.at) - Bol(w.text, w.at) < MAXCOL - 1
    ensures Next(Next(w, CharKey(c)), BackKey) == w
  {
    Undone(w.text, w.at, c);
  }

  lemma Beside(t: string, o: nat, c: char, t': string)
    requires o <= |t| && t' == Inserted(t, o, c)
    ensures |t'| == |t| + 1 && t'[..o] == t[..o] && t'[o] == c && t'[o + 1..] == t[o..]
  {
  }

  /** The line a character goes into starts where it did and ends one later; a new line ends and starts one there. */
  lemma LineGrown(t: string, o: nat, c: char, t': string)
    requires o <= |t| && t' == Inserted(t, o, c)
    ensures |t'| == |t| + 1 && t'[o] == c && Bol(t', o) == Bol(t, o) && Eol(t', o + 1) == Eol(t, o) + 1
    ensures c != NL ==> Bol(t', o + 1) == Bol(t, o)
  {
    Beside(t, o, c, t');
    BolBefore(t, t', o);
    EolAfter(t, t', o);
  }

  /** A line split by a new line is whole again after a backspace exactly if it has fewer than 1023 characters. */
  lemma SplitAndJoined(w: Work)
    requires w.Valid() && Newlines(w.text) + 1 < MAXLINES - 1
    ensures Next(Next(w, EnterKey), BackKey) == w <==> Eol(w.text, w.at) - Bol(w.text, w.at) < MAXCOL - 1
  {
    var t' := Inserted(w.text, w.at, NL);
    assert Next(w, EnterKey) == w.(text := t', at := w.at + 1);
    LineGrown(w.text, w.at, NL, t');
    Undone(w.text, w.at, NL);
  }

  /** Only what is before an offset decides where its line starts, and only what is after it where that ends. */
  lemma {:induction false} BolBefore(t: string, t': string, o: nat)
    requires o <= |t| && o <= |t'| && t[..o] == t'[..o]
    ensures Bol(t, o) == Bol(t', o)
  {
    if o > 0 {
      assert t[o - 1] == t[..o][o - 1] == t'[..o][o - 1] == t'[o - 1];
      assert t[..o - 1] == t[..o][..o - 1] == t'[..o][..o - 1] == t'[..o - 1];
      BolBefore(t, t', o - 1);
    }
  }

  lemma {:induction false} EolAfter(t: string, t': string, o: nat)
    requires o <= |t| && |t'| == |t| + 1 && t'[o + 1..] == t[o..]
    ensures Eol(t', o + 1) == Eol(t, o) + 1
    decreases |t| - o
  {
    if o < |t| {
      assert t'[o + 1] == t'[o + 1..][0] == t[o..][0] == t[o];
      assert t'[o + 2..] == t'[o + 1..][1..] == t[o..][1..] == t[o + 1..];
      EolAfter(t, t', o + 1);
    }
  }

  lemma CharTyped(w: Work, c: char, u: Work)
    requires w.Valid() && Eol(w.text, w.at) - Bol(w.text, w.at) < MAXCOL - 1 && c != NL && u == Next(w, CharKey(c))
    ensures u == Work(Inserted(w.text, w.at, c), w.at + 1, w.file)
    ensures Eol(u.text, u.at) - Bol(u.text, u.at) == Eol(w.text, w.at) - Bol(w.text, w.at) + 1
  {
    LineGrown(w.text, w.at, c, u.text);
  }

  lemma TypedOn(t: string, o: nat, c: char, t': string, s: string)
    requires o <= |t| && t' == Inserted(t, o, c)
    ensures o + 1 <= |t'| && t'[..o + 1] + s + t'[o + 1..] == t[..o] + ([c] + s) + t[o..]
  {
    Beside(t, o, c, t');
    assert t'[..o + 1] == t[..o] + [c];
  }

  lemma KeyTyped(c: char, rest: string)
    requires 32 <= Code(c) < 127
    ensures Keys([c] + rest) == [CharKey(c)] + Keys(rest)
  {
    assert ([c] + rest)[1..] == rest;
  }

  lemma {:induction false} TypedTo(w: Work, s: string, rest: string, z: Work)
    requires w.Valid() && Eol(w.text, w.at) - Bol(w.text, w.at) + |s| <= MAXCOL - 1
    requires forall i :: 0 <= i < |s| ==> 32 <= Code(s[i]) < 127
    requires z == Work(w.text[..w.at] + s + w.text[w.at..], w.at + |s|, w.file)
    ensures Fold(w, Keys(s + rest)) == Fold(z, Keys(rest))
    decreases |s|
  {
    if s == "" {
      assert s + rest == rest && w.text[..w.at] + s + w.text[w.at..] == w.text;
    } else {
      var c, more, u := s[0], s[1..], Next(w, CharKey(s[0]));
      assert s == [c] + more && s + rest == [c] + (more + rest);
      CharTyped(w, c, u);
      TypedOn(w.text, w.at, c, u.text, more);
      TypedTo(u, more, rest, z);
      KeyTyped(c, more + rest);
      FoldFirst(w, CharKey(c), Keys(more + rest));
    }
  }

  /** What is typed goes in at the cursor, as long as the line has room for it. */
  lemma TypedIn(w: Work, s: string, rest: string)
    requires w.Valid() && Eol(w.text, w.at) - Bol(w.text, w.at) + |s| <= MAXCOL - 1
    requires forall i :: 0 <= i < |s| ==> 32 <= Code(s[i]) < 127
    ensures Fold(w, Keys(s + rest)) ==
      Fold(Work(w.text[..w.at] + s + w.text[w.at..], w.at + |s|, w.file), Keys(rest))
  {
    TypedTo(w, s, rest, Work(w.text[..w.at] + s + w.text[w.at..], w.at + |s|, w.file));
  }

  lemma FoldFirst(w: Work, k: Key, ks: seq<Key>)
    requires w.Valid()
    ensures Fold(w, [k] + ks) == Fold(Next(w, k), ks)
  {
    assert ([k] + ks)[1..] == ks;
  }

  /** Typing a line and ^S puts it into the file. */
  lemma TypedAndSaved(w: Work, s: string, save: char)
    requires w.Valid() && Eol(w.text, w.at) - Bol(w.text, w.at) + |s| <= MAXCOL - 1 && Code(save) == 19
    requires forall i :: 0 <= i < |s| ==> 32 <= Code(s[i]) < 127
    ensures Fold(w, Keys(s + [save])).file == w.text[..w.at] + s + w.text[w.at..]
  {
    TypedIn(w, s, [save]);
    assert [save][1..] == "";
    assert Keys([save]) == [SaveKey] + Keys("");
    assert [SaveKey][1..] == [];
  }

  // ------------------------------------------------------------ places in the text and places in the lines

  ghost predicate NoNewlines(ls: seq<string>) {
    forall i {:trigger ls[i]} :: 0 <= i < |ls| ==> NL !in ls[i]
  }

  lemma {:induction false} BolIs(t: string, pre: string, l: string, post: string, x: nat)
    requires t == pre + l + post && NL !in l && x <= |l| && (pre == "" || pre[|pre| - 1] == NL)
    ensures |pre| + x <= |t| && Bol(t, |pre| + x) == |pre|
  {
    if x > 0 {
      assert t[|pre| + x - 1] == l[x - 1];
      BolIs(t, pre, l, post, x - 1);
    } else if pre != "" {
      assert t[|pre| - 1] == NL;
    }
  }

  lemma {:induction false} EolIs(t: string, pre: string, l: string, post: string, x: nat)
    requires t == pre + l + post && NL !in l && x <= |l| && (post == "" || post[0] == NL)
    ensures |pre| + x <= |t| && Eol(t, |pre| + x) == |pre| + |l|
    decreases |l| - x
  {
    if x < |l| {
      assert t[|pre| + x] == l[x];
      EolIs(t, pre, l, post, x + 1);
    } else if post != "" {
      assert t[|pre| + |l|] == NL;
    }
  }

  lemma {:induction false} NewlinesJoin(a: string, b: string)
    ensures Newlines(a + b) == Newlines(a) + Newlines(b)
  {
    if b == "" {
      assert a + b == a;
    } else {
      NewlinesJoin(a, b[..|b| - 1]);
      assert (a + b)[..|a + b| - 1] == a + b[..|b| - 1];
    }
  }

  lemma {:induction false} NoneIn(l: string)
    requires NL !in l
    ensures Newlines(l) == 0
  {
    if l != "" { NoneIn(l[..|l| - 1]); }
  }

  lemma {:induction false} NewlinesFlat(ls: seq<string>)
    requires |ls| > 0 && NoNewlines(ls)
    ensures Newlines(Flat(ls)) == |ls| - 1
  {
    var n := |ls| - 1;
    NoneIn(ls[n]);
    if n > 0 {
      var init := ls[..n];
      NewlinesFlat(init);
      NewlinesJoin(Flat(init) + [NL], ls[n]);
      NewlinesJoin(Flat(init), [NL]);
      assert [NL][..0] == "";
    }
  }

  /** A place in the lines and the offset it has in the text: the ends of its line, and what is beside it. */
  lemma Place(ls: seq<string>, cy: nat, cx: nat, t: string, o: nat)
    requires NoNewlines(ls) && cy < |ls| && cx <= |ls[cy]| && t == Flat(ls) && o == Offset(ls, cy, cx)
    ensures o <= |t| && Bol(t, o) == Offset(ls, cy, 0) == o - cx &&
        Eol(t, o) == Offset(ls, cy, |ls[cy]|) == o - cx + |ls[cy]|
    ensures (cy == 0 <==> o == cx) && (cy + 1 == |ls| <==> Eol(t, o) == |t|)
    ensures o > 0 ==> (t[o - 1] == NL <==> cx == 0)
    ensures o < |t| ==> (t[o] == NL <==> cx == |ls[cy]|)
  {
    Around(ls, cy);
    var pre, l, post := Before(ls, cy), ls[cy], After(ls, cy);
    BolIs(t, pre, l, post, cx);
    EolIs(t, pre, l, post, cx);
    if cx > 0 { assert t[o - 1] == l[cx - 1]; } else if cy > 0 { assert t[o - 1] == pre[|pre| - 1]; }
    if cx < |l| { assert t[o] == l[cx]; } else if cy + 1 < |ls| { assert t[o] == post[0]; }
  }

  // ------------------------------------------------------------ lines that stand for a text

  /** The lines and the place in them stand for the text and the offset. */
  ghost predicate Shows(ls: seq<string>, cy: int, cx: int, w: Work) {
    && NoNewlines(ls) && 0 <= cy < |ls| && 0 <= cx <= |ls[cy]|
    && w.text == Flat(ls) && w.at == Offset(ls, cy, cx)
  }

  /** The line after a character went in, or out, has no newline either. */
  lemma StillOneLine(l: string, x: nat, c: char)
    requires NL !in l && x <= |l|
    ensures c != NL ==> NL !in l[..x] + [c] + l[x..]
    ensures x < |l| ==> NL !in l[..x] + l[x + 1..]
  {
  }

  lemma CharShown(ls: seq<string>, cy: nat, cx: nat, w: Work, c: char, ms: seq<string>, cx': nat, w': Work)
    requires w.Valid() && w' == Next(w, CharKey(c)) && cx' == cx + 1
    requires Shows(ls, cy, cx, w) && c != NL && ms == ls[cy := ls[cy][..cx] + [c] + ls[cy][cx..]] &&
        |ls[cy]| < MAXCOL - 1
    ensures Shows(ms, cy, cx', w')
  {
    Place(ls, cy, cx, w.text, w.at);
    TypedChar(ls, ms, cy, cx, c);
    StillOneLine(ls[cy], cx, c);
  }

  lemma CharRefused(ls: seq<string>, cy: nat, cx: nat, w: Work, c: char)
    requires Shows(ls, cy, cx, w) && |ls[cy]| >= MAXCOL - 1
    ensures w.Valid() && Next(w, CharKey(c)) == w
  {
    Place(ls, cy, cx, w.text, w.at);
  }

  lemma EnterShown(ls: seq<string>, cy: nat, cx: nat, w: Work, ms: seq<string>, cy': nat, w': Work)
    requires Shows(ls, cy, cx, w) && w.Valid() && w' == Next(w, EnterKey) && ms == SplitAt(ls, cy, cx) &&
        |ls| < MAXLINES - 1 && cy' == cy + 1
    ensures Shows(ms, cy', 0, w')
  {
    Place(ls, cy, cx, w.text, w.at);
    NewlinesFlat(ls);
    TypedNewline(ls, ms, cy, cx);
    SplitNoNewlines(ls, cy, cx, ms);
  }

  lemma SplitNoNewlines(ls: seq<string>, cy: nat, cx: nat, ms: seq<string>)
    requires NoNewlines(ls) && cy < |ls| && cx <= |ls[cy]| && ms == SplitAt(ls, cy, cx)
    ensures NoNewlines(ms) && cy + 1 < |ms|
  {
    forall i | 0 <= i < |ms| ensures NL !in ms[i] {
      assert ms[i] == if i < cy then ls[i]
          else if i == cy then ls[cy][..cx] else if i == cy + 1 then ls[cy][cx..] else ls[i - 1];
    }
  }

  lemma EnterRefused(ls: seq<string>, cy: nat, cx: nat, w: Work)
    requires Shows(ls, cy, cx, w) && |ls| >= MAXLINES - 1
    ensures w.Valid() && Next(w, EnterKey) == w
  {
    Place(ls, cy, cx, w.text, w.at);
    NewlinesFlat(ls);
  }

  lemma BackShown(ls: seq<string>, cy: nat, cx: nat, w: Work, ms: seq<string>, cx': nat, w': Work)
    requires w.Valid() && w' == Next(w, BackKey) && cx == cx' + 1
    requires Shows(ls, cy, cx, w) && cx > 0 && ms == ls[cy := ls[cy][..cx - 1] + ls[cy][cx..]]
    ensures Shows(ms, cy, cx', w')
  {
    Place(ls, cy, cx, w.text, w.at);
    ErasedChar(ls, ms, cy, cx - 1);
    StillOneLine(ls[cy], cx - 1, ' ');
  }

  /** The line before, seen from the start of one. */
  lemma LineBefore(ls: seq<string>, cy: nat, t: string, o: nat)
    requires NoNewlines(ls) && 0 < cy < |ls| && t == Flat(ls) && o == Offset(ls, cy, 0)
    ensures 0 < o <= |t| && Bol(t, o - 1) == Offset(ls, cy - 1, 0) == o - 1 - |ls[cy - 1]|
  {
    LineStart(ls, cy);
    Place(ls, cy, 0, t, o);
    Place(ls, cy - 1, |ls[cy - 1]|, t, o - 1);
  }

  lemma JoinShown(ls: seq<string>, cy: nat, w: Work, ms: seq<string>, cy': nat, cx': nat, w': Work)
    requires w.Valid() && w' == Next(w, BackKey) && cy == cy' + 1 && cy' < |ls| && cx' == |ls[cy']|
    requires Shows(ls, cy, 0, w) && cy > 0 && |ls[cy - 1]| + |ls[cy]| < MAXCOL - 1 && ms == JoinAt(ls, cy)
    ensures Shows(ms, cy', cx', w')
  {
    JoinAllowed(ls, cy, w);
    ErasedNewline(ls, ms, cy');
    JoinNoNewlines(ls, cy, ms);
  }

  lemma JoinAllowed(ls: seq<string>, cy: nat, w: Work)
    requires Shows(ls, cy, 0, w) && cy > 0 && |ls[cy - 1]| + |ls[cy]| < MAXCOL - 1
    ensures w.Valid() && w.at > 0 && Next(w, BackKey) == w.(text := Deleted(w.text, w.at - 1), at := w.at - 1)
  {
    JoinPlace(ls, cy, w.text, w.at);
  }

  /** The two lines about a newline, measured in the text. */
  lemma JoinPlace(ls: seq<string>, cy: nat, t: string, o: nat)
    requires NoNewlines(ls) && 0 < cy < |ls| && t == Flat(ls) && o == Offset(ls, cy, 0)
    ensures 0 < o <= |t| && t[o - 1] == NL && Eol(t, o) - Bol(t, o - 1) - 1 == |ls[cy - 1]| + |ls[cy]|
  {
    Place(ls, cy, 0, t, o);
    LineBefore(ls, cy, t, o);
  }

  lemma JoinNoNewlines(ls: seq<string>, cy: nat, ms: seq<string>)
    requires NoNewlines(ls) && 0 < cy < |ls| && ms == JoinAt(ls, cy)
    ensures NoNewlines(ms) && cy - 1 < |ms| && |ls[cy - 1]| <= |ms[cy - 1]|
  {
    forall i | 0 <= i < |ms| ensures NL !in ms[i] {
      assert ms[i] == if i < cy - 1 then ls[i] else if i == cy - 1 then ls[cy - 1] + ls[cy] else ls[i + 1];
    }
  }

  lemma BackRefused(ls: seq<string>, cy: nat, w: Work)
    requires Shows(ls, cy, 0, w) && (cy > 0 ==> |ls[cy - 1]| + |ls[cy]| >= MAXCOL - 1)
    ensures w.Valid() && Next(w, BackKey) == w
  {
    if cy > 0 { JoinPlace(ls, cy, w.text, w.at); } else { Place(ls, cy, 0, w.text, w.at); }
  }

  lemma DelShown(ls: seq<string>, cy: nat, cx: nat, w: Work, ms: seq<string>)
    requires Shows(ls, cy, cx, w) && cx < |ls[cy]| && ms == ls[cy := ls[cy][..cx] + ls[cy][cx + 1..]]
    ensures w.Valid() && Shows(ms, cy, cx, Next(w, DelKey))
  {
    InLine(ls, cy, cx, w.text, w.at);
    ErasedChar(ls, ms, cy, cx);
    StillOneLine(ls[cy], cx, ' ');
    SameStart(ls, cy, ms[cy], cx);
  }

  lemma InLine(ls: seq<string>, cy: nat, cx: nat, t: string, o: nat)
    requires NoNewlines(ls) && cy < |ls| && cx < |ls[cy]| && t == Flat(ls) && o == Offset(ls, cy, cx)
    ensures o < |t| && t[o] != NL
  {
    Place(ls, cy, cx, t, o);
  }

  lemma DelRefused(ls: seq<string>, cy: nat, cx: nat, w: Work)
    requires Shows(ls, cy, cx, w) && cx == |ls[cy]|
    ensures w.Valid() && Next(w, DelKey) == w
  {
    Place(ls, cy, cx, w.text, w.at);
  }

  /** The line after, seen from the end of one. */
  lemma LineAfter(ls: seq<string>, cy: nat, t: string, e: nat)
    requires NoNewlines(ls) && cy + 1 < |ls| && t == Flat(ls) && e == Offset(ls, cy, |ls[cy]|)
    ensures e < |t| && Offset(ls, cy + 1, 0) == e + 1 && Eol(t, e + 1) == e + 1 + |ls[cy + 1]|
  {
    LineStart(ls, cy + 1);
    Place(ls, cy + 1, 0, t, e + 1);
  }

  /** The same lines with the cursor elsewhere: in column `cx'` of a line that begins at `b`. */
  lemma Elsewhere(ls: seq<string>, cy: nat, cx: nat, w: Work, w': Work, cy': nat, cx': nat, b: nat)
    requires Shows(ls, cy, cx, w) && cy' < |ls| && cx' <= |ls[cy']| && b == Offset(ls, cy', 0) &&
        w' == w.(at := b + cx')
    ensures Shows(ls, cy', cx', w')
  {
  }

  /** A place in numbers: how far it is from the ends of the text. */
  lemma Spot(ls: seq<string>, cy: nat, cx: nat, t: string, o: nat)
    requires NoNewlines(ls) && cy < |ls| && cx <= |ls[cy]| && t == Flat(ls) && o == Offset(ls, cy, cx)
    ensures cx <= o <= |t| && (o == cx <==> cy == 0)
    ensures o - cx + |ls[cy]| <= |t| && (o - cx + |ls[cy]| == |t| <==> cy + 1 == |ls|)
  {
    Place(ls, cy, cx, t, o);
  }

  /** The places one to the left and one to the right. */
  lemma LeftPlace(ls: seq<string>, cy: nat, cx: nat, t: string, o: nat, cy': nat, cx': nat)
    requires NoNewlines(ls) && cy < |ls| && cx <= |ls[cy]| && t == Flat(ls) && o == Offset(ls, cy, cx)
    requires if cx > 0 then cy' == cy && cx' == cx - 1
        else if cy > 0 then cy' == cy - 1 && cx' == |ls[cy']| else cy' == cy && cx' == cx
    ensures o <= |t| && Offset(ls, cy', cx') == if o > 0 then o - 1 else o
  {
    Spot(ls, cy, cx, t, o);
    if cx == 0 < cy { LineStart(ls, cy); }
  }

  lemma RightPlace(ls: seq<string>, cy: nat, cx: nat, t: string, o: nat, cy': nat, cx': nat)
    requires NoNewlines(ls) && cy < |ls| && cx <= |ls[cy]| && t == Flat(ls) && o == Offset(ls, cy, cx)
    requires if cx < |ls[cy]| then cy' == cy && cx' == cx + 1
        else if cy + 1 < |ls| then cy' == cy + 1 && cx' == 0 else cy' == cy && cx' == cx
    ensures o <= |t| && Offset(ls, cy', cx') == if o < |t| then o + 1 else o
  {
    Spot(ls, cy, cx, t, o);
    if cx == |ls[cy]| && cy + 1 < |ls| { LineStart(ls, cy + 1); }
  }

  lemma LeftShown(ls: seq<string>, cy: nat, cx: nat, w: Work, cy': nat, cx': nat)
    requires Shows(ls, cy, cx, w)
    requires if cx > 0 then cy' == cy && cx' == cx - 1
        else if cy > 0 then cy' == cy - 1 && cx' == |ls[cy']| else cy' == cy && cx' == cx
    ensures w.Valid() && Shows(ls, cy', cx', Next(w, LeftKey))
  {
    LeftPlace(ls, cy, cx, w.text, w.at, cy', cx');
  }

  lemma RightShown(ls: seq<string>, cy: nat, cx: nat, w: Work, cy': nat, cx': nat)
    requires Shows(ls, cy, cx, w)
    requires if cx < |ls[cy]| then cy' == cy && cx' == cx + 1
        else if cy + 1 < |ls| then cy' == cy + 1 && cx' == 0 else cy' == cy && cx' == cx
    ensures w.Valid() && Shows(ls, cy', cx', Next(w, RightKey))
  {
    RightPlace(ls, cy, cx, w.text, w.at, cy', cx');
  }

  /** The same column in the line above and below, or its end. */
  lemma UpShown(ls: seq<string>, cy: nat, cx: nat, w: Work, cy': nat, cx': nat)
    requires Shows(ls, cy, cx, w)
    requires if cy > 0 then cy' == cy - 1 && cx' == Least(cx, |ls[cy']|) else cy' == cy && cx' == cx
    ensures w.Valid() && Shows(ls, cy', cx', Next(w, UpKey))
  {
    if cy > 0 {
      var b, a := PlaceAbove(ls, cy, cx, w);
      NextUp(w, b, a);
      Elsewhere(ls, cy, cx, w, Next(w, UpKey), cy', cx', a);
    } else {
      Place(ls, cy, cx, w.text, w.at);
      assert Next(w, UpKey) == w;
    }
  }

  /** Where the line starts, and the line before it. */
  lemma PlaceAbove(ls: seq<string>, cy: nat, cx: nat, w: Work) returns (b: nat, a: nat)
    requires Shows(ls, cy, cx, w) && cy > 0
    ensures w.Valid() && b == Bol(w.text, w.at) > 0 && b + cx == w.at
    ensures a == Bol(w.text, b - 1) == Offset(ls, cy - 1, 0) && a + |ls[cy - 1]| == b - 1
  {
    Place(ls, cy, cx, w.text, w.at);
    b := w.at - cx;
    LineBefore(ls, cy, w.text, b);
    a := b - 1 - |ls[cy - 1]|;
  }

  lemma NextUp(w: Work, b: nat, a: nat)
    requires w.Valid() && b == Bol(w.text, w.at) > 0 && a == Bol(w.text, b - 1)
    ensures Next(w, UpKey) == w.(at := a + Least(w.at - b, b - 1 - a))
  {
  }

  lemma DownShown(ls: seq<string>, cy: nat, cx: nat, w: Work, cy': nat, cx': nat)
    requires Shows(ls, cy, cx, w)
    requires if cy + 1 < |ls| then cy' == cy + 1 && cx' == Least(cx, |ls[cy']|) else cy' == cy && cx' == cx
    ensures w.Valid() && Shows(ls, cy', cx', Next(w, DownKey))
  {
    if cy + 1 < |ls| {
      var b, e, z := PlaceBelow(ls, cy, cx, w);
      NextDown(w, b, e, z);
      Elsewhere(ls, cy, cx, w, Next(w, DownKey), cy', cx', e + 1);
    } else {
      Place(ls, cy, cx, w.text, w.at);
      assert Next(w, DownKey) == w;
    }
  }

  /** Where the line starts and ends, and where the line after it ends. */
  lemma PlaceBelow(ls: seq<string>, cy: nat, cx: nat, w: Work) returns (b: nat, e: nat, z: nat)
    requires Shows(ls, cy, cx, w) && cy + 1 < |ls|
    ensures w.Valid() && b == Bol(w.text, w.at) && b + cx == w.at && e == Eol(w.text, w.at) < |w.text|
    ensures Offset(ls, cy + 1, 0) == e + 1 && z == Eol(w.text, e + 1) == e + 1 + |ls[cy + 1]|
  {
    Place(ls, cy, cx, w.text, w.at);
    b, e := w.at - cx, w.at - cx + |ls[cy]|;
    LineAfter(ls, cy, w.text, e);
    z := e + 1 + |ls[cy + 1]|;
  }

  lemma NextDown(w: Work, b: nat, e: nat, z: nat)
    requires w.Valid() && b == Bol(w.text, w.at) && e == Eol(w.text, w.at) < |w.text| && z == Eol(w.text, e + 1)
    ensures Next(w, DownKey) == w.(at := e + 1 + Least(w.at - b, z - (e + 1)))
  {
  }

  lemma EndsShown(ls: seq<string>, cy: nat, cx: nat, w: Work)
    requires Shows(ls, cy, cx, w)
    ensures w.Valid() && Shows(ls, cy, 0, Next(w, HomeKey)) && Shows(ls, cy, |ls[cy]|, Next(w, EndKey))
  {
    Place(ls, cy, cx, w.text, w.at);
  }

  lemma EscapeIs(esc: char, rest: string, input: string)
    requires Code(esc) == 27 && rest != "" && input == [esc] + "[" + rest
    ensures Decode(input) == match rest[0]
      case 'A' => (UpKey, 3)
      case 'B' => (DownKey, 3)
      case 'C' => (RightKey, 3)
      case 'D' => (LeftKey, 3)
      case '3' => (DelKey, if |rest| > 1 then 4 else 3)
      case _ => (NoKey, 3)
  {
    assert input[0] == esc && input[1] == '[' && input[2] == rest[0] && |input| == |rest| + 2;
  }

  /** An escape, "[" and a letter move the cursor: A up, B down, C right, D left, over the ends of lines, and up and
      down to the same column or the end of a shorter line. */
  lemma Arrows(ls: seq<string>, cy: nat, cx: nat, w: Work, esc: char, rest: string, input: string)
    requires Shows(ls, cy, cx, w) && w.Valid() && Code(esc) == 27 && rest != "" && input == [esc] + "[" + rest
    requires rest[0] in "ABCD"
    ensures Decode(input).1 == 3
    ensures var w' := Next(w, Decode(input).0);
      if rest[0] == 'A' && cy > 0 then Shows(ls, cy - 1, Least(cx, |ls[cy - 1]|), w')
      else if rest[0] == 'B' && cy + 1 < |ls| then Shows(ls, cy + 1, Least(cx, |ls[cy + 1]|), w')
      else if rest[0] == 'C' && cx < |ls[cy]| then Shows(ls, cy, cx + 1, w')
      else if rest[0] == 'C' && cy + 1 < |ls| then Shows(ls, cy + 1, 0, w')
      else if rest[0] == 'D' && cx > 0 then Shows(ls, cy, cx - 1, w')
      else if rest[0] == 'D' && cy > 0 then Shows(ls, cy - 1, |ls[cy - 1]|, w')
      else Shows(ls, cy, cx, w')
  {
    EscapeIs(esc, rest, input);
    if rest[0] == 'A' {
      UpShown(ls, cy, cx, w, if cy > 0 then cy - 1 else cy, if cy > 0 then Least(cx, |ls[cy - 1]|) else cx);
    } else if rest[0] == 'B' {
      DownShown(ls, cy, cx, w, if cy + 1 < |ls| then cy + 1 else cy,
          if cy + 1 < |ls| then Least(cx, |ls[cy + 1]|) else cx);
    } else if rest[0] == 'C' {
      RightShown(ls, cy, cx, w, if cx == |ls[cy]| && cy + 1 < |ls| then cy + 1 else cy,
          if cx < |ls[cy]| then cx + 1 else if cy + 1 < |ls| then 0 else cx);
    } else {
      LeftShown(ls, cy, cx, w, if cx == 0 && cy > 0 then cy - 1 else cy,
          if cx > 0 then cx - 1 else if cy > 0 then |ls[cy - 1]| else cx);
    }
  }

  /** Loaded lines have no newline in them. */
  lemma {:induction false} LoadedOneLine(f: string)
    ensures NoNewlines(Loaded(f))
  {
    if f != "" { LoadedOneLine(f[..|f| - 1]); }
  }
}
