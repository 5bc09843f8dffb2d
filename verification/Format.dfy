/** The re-indenter for debug output: brackets open indented blocks, and everything but
    spaces, newlines and commas comes out as it went in. */
module Format {
  import opened Options

  datatype Marker = Marker(start: char, end: char)

  const INDENTATION: nat := 4

  datatype St = St(result: string, depth: nat, prev: char, inString: bool)

  function Spaces(n: nat): (r: string)
    ensures |r| == n && Blank(r)
  {
    seq(n, _ => ' ')
  }

  function Pop(s: string): string { if s == [] then [] else s[..|s| - 1] }

  function PopMany(s: string, n: nat): string { if n == 0 then s else PopMany(Pop(s), n - 1) }

  // --------------------------------------------------------------- one character

  function OpenBlock(st: St, start: char, includeSpace: bool): St {
    var depth := st.depth + 1;
    var spaced := if st.prev != ' ' && includeSpace then st.result + " " else st.result;
    st.(depth := depth, result := spaced + [start] + "\n" + Spaces(INDENTATION * depth))
  }

  /** No result stands for the depth underflowing. */
  function CloseBlock(st: St, m: Marker): Option<St> {
    if st.depth == 0 then None
    else
      var depth := st.depth - 1;
      if st.prev != m.start then
        var popped := if st.prev == ' ' then Pop(st.result) else st.result;
        Some(st.(depth := depth, result := popped + ",\n" + Spaces(INDENTATION * depth) + [m.end]))
      else
        Some(st.(depth := depth, result := PopMany(st.result, INDENTATION * depth + 1 + INDENTATION) + [m.end]))
  }

  /** The loop over the marker pairs, from the `i`-th on; also whether one matched. */
  function Mark(st: St, c: char, markers: seq<Marker>, i: nat, includeSpace: bool): Option<(St, bool)>
    requires i <= |markers|
    decreases |markers| - i
  {
    if i == |markers| then Some((st, false))
    else if c == markers[i].start then
      match Mark(OpenBlock(st, c, includeSpace), c, markers, i + 1, includeSpace)
      case None => None
      case Some(r) => Some((r.0, true))
    else if c == markers[i].end then
      match CloseBlock(st, markers[i])
      case None => None
      case Some(closed) =>
        (match Mark(closed, c, markers, i + 1, includeSpace)
         case None => None
         case Some(r) => Some((r.0, true)))
    else Mark(st, c, markers, i + 1, includeSpace)
  }

  function Unmarked(st: St, c: char, includeSpace: bool): St {
    if c == ',' && st.depth > 0 then
      var popped := if st.prev == ' ' then Pop(st.result) else st.result;
      st.(result := popped + ",\n" + Spaces(INDENTATION * st.depth))
    else if c == ':' && includeSpace then st.(result := st.result + [c, ' '], prev := ' ')
    else st.(result := st.result + [c], prev := c)
  }

  function Char(st: St, c: char, markers: seq<Marker>, includeSpace: bool): Option<St> {
    if c == ' ' then Some(if st.inString then st.(result := st.result + [c]) else st)
    else
      match Mark(st.(inString := if c == '"' then !st.inString else st.inString), c, markers, 0, includeSpace)
      case None => None
      case Some((marked, found)) => if found then Some(marked.(prev := c)) else Some(Unmarked(marked, c, includeSpace))
  }

  function Scan(text: string, markers: seq<Marker>, includeSpace: bool): Option<St> {
    if text == [] then Some(St([], 0, ' ', false))
    else
      match Scan(text[..|text| - 1], markers, includeSpace)
      case None => None
      case Some(st) => Char(st, text[|text| - 1], markers, includeSpace)
  }

  /** The formatter; no result stands for the panic of an underflowing depth. */
  method FormatStr(text: string, markers: seq<Marker>, includeSpace: bool) returns (r: Option<string>)
    ensures r == (match Scan(text, markers, includeSpace) case None => None case Some(st) => Some(st.result))
  {
    var st := St([], 0, ' ', false);
    var i := 0;
    while i < |text|
      invariant 0 <= i <= |text| && Scan(text[..i], markers, includeSpace) == Some(st)
    {
      var c := text[i];
      assert text[..i + 1][..i] == text[..i];
      var next := Step(st, c, markers, includeSpace);
      if next.None? {
        ScanFails(text, markers, includeSpace, i + 1);
        return None;
      }
      st := next.value;
      i := i + 1;
    }
    assert text[..i] == text;
    r := Some(st.result);
  }

  method Step(st: St, c: char, markers: seq<Marker>, includeSpace: bool) returns (r: Option<St>)
    ensures r == Char(st, c, markers, includeSpace)
  {
    if c == ' ' {
      return Some(if st.inString then st.(result := st.result + [c]) else st);
    }
    var cur := st.(inString := if c == '"' then !st.inString else st.inString);
    ghost var start := cur;
    var found := false;
    var i := 0;
    while i < |markers|
      invariant 0 <= i <= |markers|
      invariant Mark(start, c, markers, 0, includeSpace) ==
        match Mark(cur, c, markers, i, includeSpace) case None => None case Some(m) => Some((m.0, found || m.1))
    {
      if c == markers[i].start {
        cur := OpenBlock(cur, c, includeSpace);
        found := true;
      } else if c == markers[i].end {
        var closed := CloseBlock(cur, markers[i]);
        if closed.None? { return None; }
        cur := closed.value;
        found := true;
      }
      i := i + 1;
    }
    if found { return Some(cur.(prev := c)); }
    r := Some(Unmarked(cur, c, includeSpace));
  }

  lemma {:induction false} ScanFails(text: string, markers: seq<Marker>, includeSpace: bool, n: nat)
    requires n <= |text| && Scan(text[..n], markers, includeSpace).None?
    ensures Scan(text, markers, includeSpace).None?
    decreases |text|
  {
    if n < |text| {
      var init := text[..|text| - 1];
      assert init[..n] == text[..n];
      ScanFails(init, markers, includeSpace, n);
    } else {
      assert text[..n] == text;
    }
  }

  // --------------------------------------------------------------------- erasing

  predicate Erased(c: char) { c == ' ' || c == '\n' || c == ',' }

  function Erase(s: string): string {
    if s == [] then [] else Erase(s[..|s| - 1]) + if Erased(s[|s| - 1]) then [] else [s[|s| - 1]]
  }

  predicate Blank(s: string) { forall i | 0 <= i < |s| :: s[i] == ' ' || s[i] == '\n' }

  lemma {:induction false} EraseAppend(a: string, b: string)
    ensures Erase(a + b) == Erase(a) + Erase(b)
  {
    if b == [] {
      assert a + b == a;
    } else {
      var m := |b| - 1;
      EraseAppend(a, b[..m]);
      assert (a + b)[..|a| + m] == a + b[..m];
    }
  }

  lemma {:induction false} EraseNothing(s: string)
    requires forall i | 0 <= i < |s| :: Erased(s[i])
    ensures Erase(s) == []
  {
    if s != [] { EraseNothing(s[..|s| - 1]); }
  }

  /** The last `n` characters are spaces and newlines. */
  predicate BlankEnd(s: string, n: nat) { n <= |s| && Blank(s[|s| - n..]) }

  lemma {:induction false} PopBlank(s: string, n: nat)
    requires BlankEnd(s, n)
    ensures PopMany(s, n) == s[..|s| - n] && Erase(PopMany(s, n)) == Erase(s)
  {
    PopIsPrefix(s, n);
    EraseNothing(s[|s| - n..]);
    EraseAppend(s[..|s| - n], s[|s| - n..]);
    assert s == s[..|s| - n] + s[|s| - n..];
  }

  lemma {:induction false} PopIsPrefix(s: string, n: nat)
    requires n <= |s|
    ensures PopMany(s, n) == s[..|s| - n]
  {
    if n > 0 { PopIsPrefix(Pop(s), n - 1); }
  }

  // ----------------------------------------------------------------- what is kept

  predicate IsStart(c: char, markers: seq<Marker>) { exists i :: 0 <= i < |markers| && markers[i].start == c }

  predicate Hits(c: char, m: Marker) { c == m.start || c == m.end }

  /** No two pairs share the character. */
  predicate OnePair(c: char, markers: seq<Marker>) {
    forall i, j | 0 <= i < j < |markers| :: !(Hits(c, markers[i]) && Hits(c, markers[j]))
  }

  /** Spaces are skipped before markers are looked at, so no block opens with one. */
  predicate NoSpace(markers: seq<Marker>) { forall i | 0 <= i < |markers| :: markers[i].start != ' ' }

  /** No pair can open a block. */
  predicate NoOpener(markers: seq<Marker>) { forall i | 0 <= i < |markers| :: markers[i].start == ' ' }

  /** Only the space written after a colon can be taken for the start of a block. */
  predicate SpaceSafe(markers: seq<Marker>, includeSpace: bool) {
    includeSpace ==> NoSpace(markers) || NoOpener(markers)
  }

  /** A pop after a space, and the pops that close an empty block, meet only blanks. */
  ghost predicate Tidy(st: St, markers: seq<Marker>, includeSpace: bool) {
    && (st.prev == ' ' ==> st.depth == 0 || (includeSpace && BlankEnd(st.result, 1)))
    && (st.prev != ' ' && IsStart(st.prev, markers) ==> st.depth > 0 && BlankEnd(st.result, 1 + INDENTATION * st.depth))
    && (NoOpener(markers) ==> st.depth == 0)
  }

  /** How a character changes the depth. */
  function Delta(c: char, markers: seq<Marker>, i: nat): int
    requires i <= |markers|
    decreases |markers| - i
  {
    if i == |markers| then 0
    else Delta(c, markers, i + 1) + if c == markers[i].start then 1 else if c == markers[i].end then -1 else 0
  }

  function Level(text: string, markers: seq<Marker>): int {
    if text == [] then 0
    else Level(text[..|text| - 1], markers) + if text[|text| - 1] == ' ' then 0 else Delta(text[|text| - 1], markers, 0)
  }

  /** No prefix closes more markers than it opens. */
  predicate NeverBelow(text: string, markers: seq<Marker>) {
    forall n | 0 <= n <= |text| :: Level(text[..n], markers) >= 0
  }

  /** From the `i`-th pair on no pair has the character: nothing happens. */
  lemma {:induction false} NoMore(st: St, c: char, markers: seq<Marker>, i: nat, includeSpace: bool)
    requires i <= |markers| && forall k | i <= k < |markers| :: !Hits(c, markers[k])
    ensures Mark(st, c, markers, i, includeSpace) == Some((st, false)) && Delta(c, markers, i) == 0
    decreases |markers| - i
  {
    if i < |markers| { NoMore(st, c, markers, i + 1, includeSpace); }
  }

  /** With one pair for the character the loop is a single case distinction. */
  lemma {:induction false} MarkOnce(st: St, c: char, markers: seq<Marker>, i: nat, k: nat, includeSpace: bool)
    requires i <= k < |markers| && OnePair(c, markers) && Hits(c, markers[k])
    ensures Delta(c, markers, i) == if c == markers[k].start then 1 else -1
    ensures Mark(st, c, markers, i, includeSpace) ==
      if c == markers[k].start then Some((OpenBlock(st, c, includeSpace), true))
      else match CloseBlock(st, markers[k]) case None => None case Some(closed) => Some((closed, true))
    decreases k - i
  {
    if i < k {
      assert !Hits(c, markers[i]);
      MarkOnce(st, c, markers, i + 1, k, includeSpace);
    } else {
      forall j | i < j < |markers| ensures !Hits(c, markers[j]) { }
      NoMore(OpenBlock(st, c, includeSpace), c, markers, i + 1, includeSpace);
      if CloseBlock(st, markers[k]).Some? { NoMore(CloseBlock(st, markers[k]).value, c, markers, i + 1, includeSpace); }
    }
  }

  /** A line break with indentation erases to nothing and ends in blanks. */
  lemma {:induction false} NewLine(base: string, n: nat)
    ensures var out := base + "\n" + Spaces(n); BlankEnd(out, 1 + n) && BlankEnd(out, 1) && Erase(out) == Erase(base)
  {
    var out := base + "\n" + Spaces(n);
    var tail := "\n" + Spaces(n);
    assert out == base + tail;
    assert out[|out| - (1 + n)..] == tail;
    assert out[|out| - 1..] == [tail[|tail| - 1]];
    EraseNothing(tail);
    EraseAppend(base, tail);
  }

  lemma {:induction false} CommaLine(base: string, n: nat)
    ensures var out := base + ",\n" + Spaces(n); BlankEnd(out, 1 + n) && BlankEnd(out, 1) && Erase(out) == Erase(base)
  {
    NewLine(base + [','], n);
    assert base + ",\n" + Spaces(n) == (base + [',']) + "\n" + Spaces(n);
    EraseNothing([',']);
    EraseAppend(base, [',']);
  }

  lemma {:induction false} PopOne(s: string)
    requires BlankEnd(s, 1)
    ensures Erase(Pop(s)) == Erase(s)
  {
    PopBlank(s, 1);
    assert PopMany(s, 1) == PopMany(Pop(s), 0);
  }

  lemma {:induction false} Spaced(s: string)
    ensures Erase(s + " ") == Erase(s) && BlankEnd(s + " ", 1)
  {
    EraseNothing(" ");
    EraseAppend(s, " ");
    assert (s + " ")[|s|..] == " ";
  }

  lemma {:induction false} OpenKeeps(st: St, c: char, markers: seq<Marker>, includeSpace: bool)
    requires c != ' ' && IsStart(c, markers)
    ensures Tidy(OpenBlock(st, c, includeSpace).(prev := c), markers, includeSpace)
    ensures Erase(OpenBlock(st, c, includeSpace).result) == Erase(st.result) + Erase([c])
  {
    OpenedText(st, c, includeSpace);
  }

  lemma {:induction false} OpenedText(st: St, c: char, includeSpace: bool)
    ensures var out := OpenBlock(st, c, includeSpace);
            && out.depth == st.depth + 1 && BlankEnd(out.result, 1 + INDENTATION * out.depth)
            && Erase(out.result) == Erase(st.result) + Erase([c])
  {
    var spaced := if st.prev != ' ' && includeSpace then st.result + " " else st.result;
    Spaced(st.result);
    StartLine(spaced, c, INDENTATION * (st.depth + 1));
  }

  lemma {:induction false} StartLine(base: string, c: char, n: nat)
    ensures var out := base + [c] + "\n" + Spaces(n); BlankEnd(out, 1 + n) && Erase(out) == Erase(base) + Erase([c])
  {
    EraseAppend(base, [c]);
    NewLine(base + [c], n);
  }

  /** What a comma or a closing marker starts from: a space put there is taken back. */
  function Popped(st: St): string { if st.prev == ' ' then Pop(st.result) else st.result }

  lemma {:induction false} PoppedErases(st: St, markers: seq<Marker>, includeSpace: bool)
    requires Tidy(st, markers, includeSpace) && st.depth > 0
    ensures Erase(Popped(st)) == Erase(st.result)
  {
    if st.prev == ' ' { PopOne(st.result); }
  }

  lemma {:induction false} CloseKeeps(st: St, m: Marker, markers: seq<Marker>, includeSpace: bool)
    requires Tidy(st, markers, includeSpace) && m in markers && m.end != ' ' && !IsStart(m.end, markers) && st.depth > 0
    requires st.prev != ' ' || m.start != ' '
    ensures CloseBlock(st, m).Some?
    ensures Tidy(CloseBlock(st, m).value.(prev := m.end), markers, includeSpace)
    ensures Erase(CloseBlock(st, m).value.result) == Erase(st.result) + Erase([m.end])
  {
    if st.prev != m.start {
      PoppedErases(st, markers, includeSpace);
      ClosedLine(Popped(st), INDENTATION * (st.depth - 1), m.end);
    } else {
      assert IsStart(st.prev, markers);
      assert 1 + INDENTATION * st.depth == INDENTATION * (st.depth - 1) + 1 + INDENTATION;
      ClosedEmpty(st.result, 1 + INDENTATION * st.depth, m.end);
    }
  }

  lemma {:induction false} ClosedLine(base: string, n: nat, end: char)
    ensures Erase(base + ",\n" + Spaces(n) + [end]) == Erase(base) + Erase([end])
  {
    CommaLine(base, n);
    EraseAppend(base + ",\n" + Spaces(n), [end]);
  }

  lemma {:induction false} ClosedEmpty(s: string, n: nat, end: char)
    requires BlankEnd(s, n)
    ensures Erase(PopMany(s, n) + [end]) == Erase(s) + Erase([end])
  {
    PopBlank(s, n);
    EraseAppend(PopMany(s, n), [end]);
  }

  lemma {:induction false} UnmarkedKeeps(st: St, c: char, markers: seq<Marker>, includeSpace: bool)
    requires Tidy(st, markers, includeSpace) && c != ' ' && !IsStart(c, markers)
    ensures Tidy(Unmarked(st, c, includeSpace), markers, includeSpace)
    ensures Erase(Unmarked(st, c, includeSpace).result) == Erase(st.result) + Erase([c])
  {
    if c == ',' && st.depth > 0 {
      PoppedErases(st, markers, includeSpace);
      CommaLine(Popped(st), INDENTATION * st.depth);
      EraseNothing([c]);
    } else {
      EraseAppend(st.result, [c]);
      Spaced(st.result + [c]);
      assert st.result + [c, ' '] == (st.result + [c]) + " ";
    }
  }

  lemma {:induction false} MarkerKeeps(st: St, c: char, markers: seq<Marker>, k: nat, includeSpace: bool)
    requires Tidy(st, markers, includeSpace) && OnePair(c, markers) && SpaceSafe(markers, includeSpace)
      && k < |markers| && Hits(c, markers[k]) && c != ' '
    ensures var next := Mark(st, c, markers, 0, includeSpace);
            && (next.Some? <==> st.depth + Delta(c, markers, 0) >= 0)
            && (next.Some? ==> next.value.1 && next.value.0.depth == st.depth + Delta(c, markers, 0)
                               && Tidy(next.value.0.(prev := c), markers, includeSpace)
                               && Erase(next.value.0.result) == Erase(st.result) + Erase([c]))
  {
    MarkOnce(st, c, markers, 0, k, includeSpace);
    if c == markers[k].start {
      OpenKeeps(st, c, markers, includeSpace);
    } else if st.depth > 0 {
      EndIsNoStart(c, markers, k);
      CloseKeeps(st, markers[k], markers, includeSpace);
    }
  }

  /** One character: it fails exactly when it would close below zero, keeps the pops
      harmless and passes the character on. */
  lemma {:induction false} CharKeeps(st: St, c: char, markers: seq<Marker>, includeSpace: bool)
    requires Tidy(st, markers, includeSpace) && OnePair(c, markers) && SpaceSafe(markers, includeSpace)
    ensures var d := st.depth + if c == ' ' then 0 else Delta(c, markers, 0);
            var next := Char(st, c, markers, includeSpace);
            && (next.Some? <==> d >= 0)
            && (next.Some? ==> next.value.depth == d && Tidy(next.value, markers, includeSpace))
            && (next.Some? ==> Erase(next.value.result) == Erase(st.result) + Erase([c]))
  {
    if c == ' ' { SpaceKeeps(st, markers, includeSpace); } else { InkKeeps(st, c, markers, includeSpace); }
  }

  lemma {:induction false} InkKeeps(st: St, c: char, markers: seq<Marker>, includeSpace: bool)
    requires Tidy(st, markers, includeSpace) && OnePair(c, markers) && SpaceSafe(markers, includeSpace) && c != ' '
    ensures var d := st.depth + Delta(c, markers, 0);
            var next := Char(st, c, markers, includeSpace);
            && (next.Some? <==> d >= 0)
            && (next.Some? ==> next.value.depth == d && Tidy(next.value, markers, includeSpace)
                               && Erase(next.value.result) == Erase(st.result) + Erase([c]))
  {
    if k :| 0 <= k < |markers| && Hits(c, markers[k]) {
      MarkedInk(st, c, markers, k, includeSpace);
    } else {
      UnmarkedInk(st, c, markers, includeSpace);
    }
  }

  lemma {:induction false} MarkedInk(st: St, c: char, markers: seq<Marker>, k: nat, includeSpace: bool)
    requires Tidy(st, markers, includeSpace) && OnePair(c, markers) && SpaceSafe(markers, includeSpace) && c != ' '
    requires k < |markers| && Hits(c, markers[k])
    ensures var d := st.depth + Delta(c, markers, 0);
            var next := Char(st, c, markers, includeSpace);
            && (next.Some? <==> d >= 0)
            && (next.Some? ==> next.value.depth == d && Tidy(next.value, markers, includeSpace)
                               && Erase(next.value.result) == Erase(st.result) + Erase([c]))
  {
    MarkerKeeps(st.(inString := if c == '"' then !st.inString else st.inString), c, markers, k, includeSpace);
  }

  lemma {:induction false} UnmarkedInk(st: St, c: char, markers: seq<Marker>, includeSpace: bool)
    requires Tidy(st, markers, includeSpace) && c != ' ' && forall k | 0 <= k < |markers| :: !Hits(c, markers[k])
    ensures Delta(c, markers, 0) == 0
    ensures var next := Char(st, c, markers, includeSpace);
            && next.Some? && next.value.depth == st.depth && Tidy(next.value, markers, includeSpace)
            && Erase(next.value.result) == Erase(st.result) + Erase([c])
  {
    var cur := st.(inString := if c == '"' then !st.inString else st.inString);
    NoMore(cur, c, markers, 0, includeSpace);
    assert Char(st, c, markers, includeSpace) == Some(Unmarked(cur, c, includeSpace));
    if k :| 0 <= k < |markers| && markers[k].start == c {
      assert Hits(c, markers[k]);
      assert false;
    }
    UnmarkedKeeps(cur, c, markers, includeSpace);
  }

  lemma {:induction false} EndIsNoStart(c: char, markers: seq<Marker>, k: nat)
    requires k < |markers| && OnePair(c, markers) && Hits(c, markers[k]) && c != markers[k].start
    ensures !IsStart(c, markers)
  {
    if i :| 0 <= i < |markers| && markers[i].start == c { assert Hits(c, markers[i]); }
  }

  lemma {:induction false} SpaceKeeps(st: St, markers: seq<Marker>, includeSpace: bool)
    requires Tidy(st, markers, includeSpace)
    ensures Tidy(st.(result := st.result + [' ']), markers, includeSpace) && Erase([' ']) == []
      && Erase(st.result + [' ']) == Erase(st.result)
  {
    Spaced(st.result);
    EraseNothing([' ']);
    assert st.result + [' '] == st.result + " ";
    if IsStart(st.prev, markers) && st.prev != ' ' { BlankMore(st.result, 1 + INDENTATION * st.depth); }
  }

  lemma {:induction false} BlankMore(s: string, n: nat)
    requires BlankEnd(s, n)
    ensures BlankEnd(s + [' '], n)
  {
    var out := s + [' '];
    if n > 0 { assert out[|out| - n..] == s[|s| - n..][1..] + [' ']; }
  }

  /** Formatting a text whose characters belong to one pair each: it succeeds exactly when no
      prefix closes more than it opens, and then only spaces, newlines and commas differ. */
  lemma {:induction false} FormatFaithful(text: string, markers: seq<Marker>, includeSpace: bool)
    requires SpaceSafe(markers, includeSpace) && forall c | c in text :: OnePair(c, markers)
    ensures var out := Scan(text, markers, includeSpace);
            && (out.Some? <==> NeverBelow(text, markers))
            && (out.Some? ==> out.value.depth == Level(text, markers) && Tidy(out.value, markers, includeSpace))
            && (out.Some? ==> Erase(out.value.result) == Erase(text))
  {
    if text != [] {
      var m := |text| - 1;
      var init, c := text[..m], text[m];
      FormatFaithful(init, markers, includeSpace);
      assert text == init + [c];
      EraseAppend(init, [c]);
      PrefixLevels(text, markers);
      if Scan(init, markers, includeSpace).Some? {
        CharKeeps(Scan(init, markers, includeSpace).value, c, markers, includeSpace);
      }
    }
  }

  lemma {:induction false} PrefixLevels(text: string, markers: seq<Marker>)
    requires text != []
    ensures NeverBelow(text, markers) <==> NeverBelow(text[..|text| - 1], markers) && Level(text, markers) >= 0
  {
    var init := text[..|text| - 1];
    assert forall n | 0 <= n <= |init| :: init[..n] == text[..n];
    assert text[..|text|] == text;
  }

  /** A pair listed twice doubles the bracket. */
  lemma RepeatedPair()
    ensures var out := Scan("(", [Marker('(', ')'), Marker('(', ')')], false);
            out.Some? && Erase(out.value.result) == "((" && Erase("(") == "("
  {
    var ms := [Marker('(', ')'), Marker('(', ')')];
    var st := St([], 0, ' ', false);
    var once := OpenBlock(st, '(', false);
    var twice := OpenBlock(once, '(', false);
    assert Mark(twice, '(', ms, 2, false) == Some((twice, false));
    assert Mark(once, '(', ms, 1, false) == Some((twice, true));
    assert Mark(st, '(', ms, 0, false) == Some((twice, true));
    assert "("[..0] == "";
    assert Scan("", ms, false) == Some(st);
    assert Scan("(", ms, false) == Some(twice.(prev := '('));
    OpenKeeps(st, '(', ms, false);
    OpenKeeps(once, '(', ms, false);
    assert Erase("(") == "(";
  }

  lemma ScanMore(text: string, c: char, markers: seq<Marker>, includeSpace: bool, st: St)
    requires Scan(text, markers, includeSpace) == Some(st)
    ensures Scan(text + [c], markers, includeSpace) == Char(st, c, markers, includeSpace)
  {
    assert (text + [c])[..|text|] == text;
  }

  // ------------------------------------------------ the conditions are needed

  function Rep(c: char, n: nat): string { seq(n, _ => c) }

  /** How many pairs, from the `i`-th on, have the character. */
  function HitCount(c: char, markers: seq<Marker>, i: nat): (n: nat)
    requires i <= |markers|
    ensures n <= |markers| - i && (n == 0 <==> forall j | i <= j < |markers| :: !Hits(c, markers[j]))
    decreases |markers| - i
  {
    if i == |markers| then 0 else HitCount(c, markers, i + 1) + if Hits(c, markers[i]) then 1 else 0
  }

  lemma {:induction false} DeltaBound(c: char, markers: seq<Marker>, i: nat)
    requires i <= |markers|
    ensures 0 <= HitCount(c, markers, i) + Delta(c, markers, i)
    ensures (forall j | i <= j < |markers| && Hits(c, markers[j]) :: c == markers[j].start) ==>
      Delta(c, markers, i) == HitCount(c, markers, i)
    decreases |markers| - i
  {
    if i < |markers| { DeltaBound(c, markers, i + 1); }
  }

  lemma OpenLength(st: St, c: char, includeSpace: bool)
    requires !Erased(c)
    ensures |Erase(OpenBlock(st, c, includeSpace).result)| == |Erase(st.result)| + 1
  {
    OpenedText(st, c, includeSpace);
    assert Erase([c]) == [c] by { assert [c][..0] == []; }
  }

  /** A close that is not of the block just opened writes its character. */
  lemma CloseLength(st: St, m: Marker)
    requires st.depth > 0 && st.prev != ' ' && st.prev != m.start && !Erased(m.end)
    ensures CloseBlock(st, m).Some?
    ensures |Erase(CloseBlock(st, m).value.result)| == |Erase(st.result)| + 1
  {
    ClosedLine(st.result, INDENTATION * (st.depth - 1), m.end);
    assert Erase([m.end]) == [m.end] by { assert [m.end][..0] == []; }
  }

  /** Every pair that has the character writes it once more. */
  lemma {:induction false} MarkWrites(st: St, c: char, markers: seq<Marker>, i: nat, includeSpace: bool)
    requires i <= |markers| && !Erased(c)
    requires forall j | i <= j < |markers| && Hits(c, markers[j]) && c != markers[j].start ::
      st.depth >= |markers| - i && st.prev != ' ' && st.prev != markers[j].start
    ensures var r := Mark(st, c, markers, i, includeSpace);
            && r.Some? && (r.value.1 <==> HitCount(c, markers, i) > 0)
            && |Erase(r.value.0.result)| == |Erase(st.result)| + HitCount(c, markers, i)
    decreases |markers| - i
  {
    if i < |markers| {
      if c == markers[i].start {
        OpenLength(st, c, includeSpace);
        MarkWrites(OpenBlock(st, c, includeSpace), c, markers, i + 1, includeSpace);
      } else if c == markers[i].end {
        CloseLength(st, markers[i]);
        MarkWrites(CloseBlock(st, markers[i]).value, c, markers, i + 1, includeSpace);
      } else {
        MarkWrites(st, c, markers, i + 1, includeSpace);
      }
    }
  }

  /** A character that only starts pairs comes out once per pair: formatting it alone is
      faithful if and only if it starts at most one. */
  lemma {:induction false} StartsOnceIff(c: char, markers: seq<Marker>, includeSpace: bool)
    requires !Erased(c) && forall j | 0 <= j < |markers| && Hits(c, markers[j]) :: c == markers[j].start
    ensures NeverBelow([c], markers) && Scan([c], markers, includeSpace).Some?
    ensures Erase(Scan([c], markers, includeSpace).value.result) == Erase([c]) <==> HitCount(c, markers, 0) <= 1
  {
    var n := HitCount(c, markers, 0);
    StartsNeverBelow(c, markers);
    if n == 0 { FormatNone(c, markers, includeSpace); }
    else if n == 1 { FormatOnce(c, markers, includeSpace); }
    else { FormatMany(c, markers, includeSpace); }
  }

  lemma {:induction false} StartsNeverBelow(c: char, markers: seq<Marker>)
    requires forall j | 0 <= j < |markers| && Hits(c, markers[j]) :: c == markers[j].start
    ensures NeverBelow([c], markers)
  {
    DeltaBound(c, markers, 0);
    assert [c][..0] == [] && NeverBelow([], markers);
    PrefixLevels([c], markers);
    assert Level([], markers) == 0;
  }

  /** The state in which the markers meet the first character. */
  function First(c: char): St { St([], 0, ' ', c == '"') }

  lemma {:induction false} ScanOne(c: char, markers: seq<Marker>, includeSpace: bool)
    requires c != ' '
    ensures Scan([c], markers, includeSpace) ==
      match Mark(First(c), c, markers, 0, includeSpace)
      case None => None
      case Some((marked, found)) => if found then Some(marked.(prev := c)) else Some(Unmarked(marked, c, includeSpace))
  {
    ScanMore([], c, markers, includeSpace, St([], 0, ' ', false));
    assert [] + [c] == [c];
  }

  lemma {:induction false} FormatNone(c: char, markers: seq<Marker>, includeSpace: bool)
    requires !Erased(c) && HitCount(c, markers, 0) == 0
    ensures Scan([c], markers, includeSpace).Some? && Erase(Scan([c], markers, includeSpace).value.result) == Erase([c])
  {
    ScanOne(c, markers, includeSpace);
    NoMore(First(c), c, markers, 0, includeSpace);
    UnmarkedAlone(First(c), c, includeSpace);
    assert Erase([c]) == [c] by { assert [c][..0] == []; }
  }

  lemma {:induction false} FormatMany(c: char, markers: seq<Marker>, includeSpace: bool)
    requires !Erased(c) && HitCount(c, markers, 0) >= 2
    requires forall j | 0 <= j < |markers| && Hits(c, markers[j]) :: c == markers[j].start
    ensures Scan([c], markers, includeSpace).Some? && Erase(Scan([c], markers, includeSpace).value.result) != Erase([c])
  {
    ScanOne(c, markers, includeSpace);
    MarkWrites(First(c), c, markers, 0, includeSpace);
    assert Erase([c]) == [c] by { assert [c][..0] == []; }
  }

  lemma UnmarkedAlone(st: St, c: char, includeSpace: bool)
    requires !Erased(c) && st.result == [] && st.depth == 0
    ensures Erase(Unmarked(st, c, includeSpace).result) == [c]
  {
    assert [] + [c] == [c] && [] + [c, ' '] == [c] + " ";
    Spaced([c]);
    assert Erase([c]) == [c] by { assert [c][..0] == []; }
  }

  lemma {:induction false} FormatOnce(c: char, markers: seq<Marker>, includeSpace: bool)
    requires !Erased(c) && HitCount(c, markers, 0) == 1
    requires forall j | 0 <= j < |markers| && Hits(c, markers[j]) :: c == markers[j].start
    ensures Scan([c], markers, includeSpace).Some? && Erase(Scan([c], markers, includeSpace).value.result) == Erase([c])
  {
    var k :| 0 <= k < |markers| && Hits(c, markers[k]);
    OneHit(c, markers, 0, k);
    ScanOne(c, markers, includeSpace);
    MarkOnce(First(c), c, markers, 0, k, includeSpace);
    assert IsStart(c, markers);
    OpenKeeps(First(c), c, markers, includeSpace);
  }

  lemma {:induction false} OneHit(c: char, markers: seq<Marker>, i: nat, k: nat)
    requires i <= k < |markers| && Hits(c, markers[k]) && HitCount(c, markers, i) == 1
    ensures forall j | i <= j < |markers| && j != k :: !Hits(c, markers[j])
    decreases |markers| - i
  {
    if i < k { OneHit(c, markers, i + 1, k); }
  }

  // A text that opens enough blocks first.

  lemma {:induction false} OpenedLevel(o: char, markers: seq<Marker>, k: nat, n: nat)
    requires OnePair(o, markers) && k < |markers| && markers[k].start == o != ' '
    ensures Level(Rep(o, n), markers) == n && NeverBelow(Rep(o, n), markers)
  {
    MarkOnce(St([], 0, ' ', false), o, markers, 0, k, false);
    if n == 0 {
      assert Rep(o, 0) == [];
    } else {
      OpenedLevel(o, markers, k, n - 1);
      assert Rep(o, n)[..n - 1] == Rep(o, n - 1);
      PrefixLevels(Rep(o, n), markers);
    }
  }

  /** The last character was the opener. */
  lemma {:induction false} OpenedPrev(o: char, markers: seq<Marker>, k: nat, n: nat, includeSpace: bool)
    requires OnePair(o, markers) && k < |markers| && markers[k].start == o != ' ' && n > 0
    requires Scan(Rep(o, n), markers, includeSpace).Some?
    ensures Scan(Rep(o, n), markers, includeSpace).value.prev == o
  {
    assert Rep(o, n)[..n - 1] == Rep(o, n - 1);
    var st := Scan(Rep(o, n - 1), markers, includeSpace).value;
    MarkOnce(st.(inString := if o == '"' then !st.inString else st.inString), o, markers, 0, k, includeSpace);
  }

  lemma {:induction false} Opened(o: char, markers: seq<Marker>, k: nat, n: nat, includeSpace: bool)
    requires SpaceSafe(markers, includeSpace) && OnePair(o, markers)
    requires k < |markers| && markers[k].start == o != ' ' && n > 0
    ensures Level(Rep(o, n), markers) == n && NeverBelow(Rep(o, n), markers)
    ensures var out := Scan(Rep(o, n), markers, includeSpace);
            && out.Some? && out.value.depth == n && out.value.prev == o
            && BlankEnd(out.value.result, 1 + INDENTATION * n) && Erase(out.value.result) == Erase(Rep(o, n))
  {
    OpenedLevel(o, markers, k, n);
    FormatFaithful(Rep(o, n), markers, includeSpace);
    OpenedPrev(o, markers, k, n, includeSpace);
    assert IsStart(o, markers);
  }

  /** The first pair that has the character closes the block just opened, the others write it. */
  lemma {:induction false} FirstCloses(st: St, c: char, markers: seq<Marker>, i: nat, k: nat, includeSpace: bool)
    requires i <= k < |markers| && !Erased(c) && c == markers[k].end != markers[k].start == st.prev
    requires st.prev != ' ' && OnePair(st.prev, markers) && st.depth >= |markers| - i
    requires BlankEnd(st.result, 1 + INDENTATION * st.depth) && forall j | i <= j < k :: !Hits(c, markers[j])
    ensures var r := Mark(st, c, markers, i, includeSpace);
            r.Some? && r.value.1 && |Erase(r.value.0.result)| == |Erase(st.result)| + HitCount(c, markers, i)
    decreases k - i
  {
    if i < k {
      FirstCloses(st, c, markers, i + 1, k, includeSpace);
    } else {
      CloseOpened(st, markers[k]);
      forall j | k < j < |markers| && Hits(c, markers[j]) ensures st.prev != markers[j].start {
        assert Hits(st.prev, markers[k]);
      }
      MarkWrites(CloseBlock(st, markers[k]).value, c, markers, k + 1, includeSpace);
    }
  }

  lemma {:induction false} CloseOpened(st: St, m: Marker)
    requires st.depth > 0 && st.prev == m.start && m.start != ' ' && m.start != m.end && !Erased(m.end)
    requires BlankEnd(st.result, 1 + INDENTATION * st.depth)
    ensures CloseBlock(st, m).Some?
    ensures |Erase(CloseBlock(st, m).value.result)| == |Erase(st.result)| + 1
  {
    assert [m][0] == m && !IsStart(m.end, [m]);
    CloseKeeps(st, m, [m], false);
    assert Erase([m.end]) == [m.end] by { assert [m.end][..0] == []; }
  }

  /** A character in two pairs or more, and a block opener of its own pair whose pair either
      lacks the character or is the first to have it: after enough openers the character
      comes out once per pair, although no prefix closes more than it opens. */
  lemma {:induction false} SharedCharacter(c: char, o: char, k: nat, markers: seq<Marker>, includeSpace: bool)
    requires SpaceSafe(markers, includeSpace) && !Erased(c) && HitCount(c, markers, 0) >= 2
    requires k < |markers| && markers[k].start == o != ' ' && OnePair(o, markers) && o != c
    requires !Hits(c, markers[k]) || forall j | 0 <= j < k :: !Hits(c, markers[j])
    ensures var text := Rep(o, |markers|) + [c];
            && NeverBelow(text, markers) && Scan(text, markers, includeSpace).Some?
            && Erase(Scan(text, markers, includeSpace).value.result) != Erase(text)
  {
    var n := |markers|;
    var text := Rep(o, n) + [c];
    Opened(o, markers, k, n, includeSpace);
    var st := Scan(Rep(o, n), markers, includeSpace).value;
    var cur := st.(inString := if c == '"' then !st.inString else st.inString);
    ScanMore(Rep(o, n), c, markers, includeSpace, st);
    SharedWrites(cur, c, o, k, markers, includeSpace);
    assert text[..|text| - 1] == Rep(o, n);
    PrefixLevels(text, markers);
    DeltaBound(c, markers, 0);
    EraseAppend(Rep(o, n), [c]);
    assert Erase([c]) == [c] by { assert [c][..0] == []; }
  }

  lemma {:induction false} SharedWrites(st: St, c: char, o: char, k: nat, markers: seq<Marker>, includeSpace: bool)
    requires !Erased(c) && HitCount(c, markers, 0) >= 2
    requires k < |markers| && markers[k].start == o != ' ' && OnePair(o, markers) && o != c
    requires !Hits(c, markers[k]) || forall j | 0 <= j < k :: !Hits(c, markers[j])
    requires st.prev == o && st.depth == |markers| && BlankEnd(st.result, 1 + INDENTATION * st.depth)
    ensures var r := Mark(st, c, markers, 0, includeSpace);
            r.Some? && r.value.1 && |Erase(r.value.0.result)| == |Erase(st.result)| + HitCount(c, markers, 0)
  {
    if Hits(c, markers[k]) {
      FirstCloses(st, c, markers, 0, k, includeSpace);
    } else {
      forall j | 0 <= j < |markers| && Hits(c, markers[j]) ensures o != markers[j].start {
        assert Hits(o, markers[k]);
      }
      MarkWrites(st, c, markers, 0, includeSpace);
    }
  }

  // --------------------------------------------------- exactly which tables are faithful

  /** The formatter does to the text what it is for. */
  predicate Faithful(text: string, markers: seq<Marker>, includeSpace: bool) {
    var out := Scan(text, markers, includeSpace);
    (out.Some? <==> NeverBelow(text, markers)) && (out.Some? ==> Erase(out.value.result) == Erase(text))
  }

  /** A character of no pair that is copied as it is. */
  predicate Neutral(x: char, markers: seq<Marker>) {
    !Erased(x) && x != ':' && forall j | 0 <= j < |markers| :: !Hits(x, markers[j])
  }

  /** Markers that show in the output. */
  predicate Shown(markers: seq<Marker>) {
    forall j | 0 <= j < |markers| :: !Erased(markers[j].start) && !Erased(markers[j].end)
  }

  /** After a character of no pair, every pair writes the character, or the depth underflows. */
  lemma {:induction false} MarkWritesOrFails(st: St, c: char, markers: seq<Marker>, i: nat, includeSpace: bool)
    requires i <= |markers| && !Erased(c) && st.prev != ' ' && !IsStart(st.prev, markers)
    ensures var r := Mark(st, c, markers, i, includeSpace);
            r.Some? ==> (r.value.1 <==> HitCount(c, markers, i) > 0)
                        && |Erase(r.value.0.result)| == |Erase(st.result)| + HitCount(c, markers, i)
    decreases |markers| - i
  {
    if i < |markers| {
      assert markers[i].start != st.prev;
      if c == markers[i].start {
        OpenLength(st, c, includeSpace);
        MarkWritesOrFails(OpenBlock(st, c, includeSpace), c, markers, i + 1, includeSpace);
      } else if c != markers[i].end {
        MarkWritesOrFails(st, c, markers, i + 1, includeSpace);
      } else if st.depth > 0 {
        CloseLength(st, markers[i]);
        MarkWritesOrFails(CloseBlock(st, markers[i]).value, c, markers, i + 1, includeSpace);
      }
    }
  }

  /** A text that ends in a character of no pair, and then a shared one: if the pairs of that do
      not close more than the text opened, the formatter fails or writes it once per pair. */
  lemma {:induction false} SharedUnfaithful(init: string, x: char, c: char, markers: seq<Marker>, includeSpace: bool)
    requires Shown(markers) && Neutral(x, markers) && !Erased(c) && HitCount(c, markers, 0) >= 2
    requires (forall d | d in init :: OnePair(d, markers)) && NeverBelow(init, markers)
    requires Level(init, markers) + Delta(c, markers, 0) >= 0
    ensures !Faithful(init + [x] + [c], markers, includeSpace)
  {
    var text := init + [x] + [c];
    assert text[..|text| - 1] == init + [x] && (init + [x])[..|init|] == init;
    NeutralDelta(init, x, markers, includeSpace);
    PrefixLevels(init + [x], markers);
    PrefixLevels(text, markers);
    FormatFaithful(init, markers, includeSpace);
    FormatFaithful(init + [x], markers, includeSpace);
    var st := Scan(init + [x], markers, includeSpace).value;
    NeutralPrev(Scan(init, markers, includeSpace).value, x, markers, includeSpace);
    ScanMore(init, x, markers, includeSpace, Scan(init, markers, includeSpace).value);
    ScanMore(init + [x], c, markers, includeSpace, st);
    MarkWritesOrFails(st.(inString := if c == '"' then !st.inString else st.inString), c, markers, 0, includeSpace);
    EraseAppend(init + [x], [c]);
    assert Erase([c]) == [c] by { assert [c][..0] == []; }
  }

  lemma {:induction false} NeutralDelta(init: string, x: char, markers: seq<Marker>, includeSpace: bool)
    requires Neutral(x, markers)
    ensures Level(init + [x], markers) == Level(init, markers) && OnePair(x, markers)
  {
    assert (init + [x])[..|init|] == init;
    NoMore(First(x), x, markers, 0, includeSpace);
  }

  lemma {:induction false} NeutralPrev(st: St, x: char, markers: seq<Marker>, includeSpace: bool)
    requires Neutral(x, markers)
    ensures Char(st, x, markers, includeSpace).Some? && Char(st, x, markers, includeSpace).value.prev == x
    ensures x != ' ' && !IsStart(x, markers)
  {
    NoMore(st.(inString := if x == '"' then !st.inString else st.inString), x, markers, 0, includeSpace);
    if k :| 0 <= k < |markers| && markers[k].start == x { assert Hits(x, markers[k]); }
  }

  /** The starts, and the ends that are not starts of their own pair, from the `i`-th pair on. */
  ghost function StartsOf(markers: seq<Marker>, i: nat): multiset<char>
    requires i <= |markers|
    decreases |markers| - i
  {
    if i == |markers| then multiset{} else StartsOf(markers, i + 1) + multiset{markers[i].start}
  }

  ghost function EndsOf(markers: seq<Marker>, i: nat): multiset<char>
    requires i <= |markers|
    decreases |markers| - i
  {
    if i == |markers| then multiset{}
    else if markers[i].end == markers[i].start then EndsOf(markers, i + 1)
    else EndsOf(markers, i + 1) + multiset{markers[i].end}
  }

  lemma {:induction false} CountMarks(markers: seq<Marker>, i: nat)
    requires i <= |markers|
    ensures |EndsOf(markers, i)| <= |StartsOf(markers, i)| == |markers| - i
    decreases |markers| - i
  {
    if i < |markers| { CountMarks(markers, i + 1); }
  }

  lemma AddOne(ms: multiset<char>, x: char, c: char)
    ensures (ms + multiset{x})[c] == ms[c] + if x == c then 1 else 0
  {
  }

  lemma {:induction false} DeltaCounts(c: char, markers: seq<Marker>, i: nat)
    requires i <= |markers|
    ensures Delta(c, markers, i) == StartsOf(markers, i)[c] as int - EndsOf(markers, i)[c] as int
    decreases |markers| - i
  {
    if i < |markers| {
      DeltaCounts(c, markers, i + 1);
      AddOne(StartsOf(markers, i + 1), markers[i].start, c);
      AddOne(EndsOf(markers, i + 1), markers[i].end, c);
    }
  }

  lemma {:induction false} StartOf(c: char, markers: seq<Marker>, i: nat) returns (k: nat)
    requires i <= |markers| && c in StartsOf(markers, i)
    ensures i <= k < |markers| && markers[k].start == c
    decreases |markers| - i
  {
    if markers[i].start == c { k := i; } else { k := StartOf(c, markers, i + 1); }
  }

  lemma {:induction false} NotOutnumbered(a: multiset<char>, b: multiset<char>) returns (c: char)
    requires |b| <= |a| && 0 < |a|
    ensures c in a && b[c] <= a[c]
  {
    if a <= b {
      assert b == a + (b - a);
      assert |b - a| == 0;
      c :| c in a;
      assert (b - a)[c] == 0;
    } else {
      c :| a[c] > b[c];
    }
  }

  /** Some opener opens at least as often as it closes. */
  lemma {:induction false} OpenerOpens(markers: seq<Marker>) returns (k: nat)
    requires markers != []
    ensures k < |markers| && Delta(markers[k].start, markers, 0) >= 0
  {
    CountMarks(markers, 0);
    var c := NotOutnumbered(StartsOf(markers, 0), EndsOf(markers, 0));
    DeltaCounts(c, markers, 0);
    k := StartOf(c, markers, 0);
  }

  lemma {:induction false} SharedHits(c: char, markers: seq<Marker>, i: nat)
    requires i <= |markers| && HitCount(c, markers, i) <= 1
    ensures forall j, k | i <= j < k < |markers| :: !(Hits(c, markers[j]) && Hits(c, markers[k]))
    decreases |markers| - i
  {
    if i < |markers| { SharedHits(c, markers, i + 1); }
  }

  /** Exactly the tables without a shared character are formatted faithfully, if some character
      is in no pair. */
  lemma {:induction false} TableIff(markers: seq<Marker>, includeSpace: bool, x: char)
    requires Shown(markers) && Neutral(x, markers)
    ensures (forall text: string :: Faithful(text, markers, includeSpace)) <==> (forall c: char :: OnePair(c, markers))
  {
    if forall c: char :: OnePair(c, markers) {
      forall text: string ensures Faithful(text, markers, includeSpace) {
        FormatFaithful(text, markers, includeSpace);
      }
    } else {
      var c :| !OnePair(c, markers);
      var text := Counterexample(markers, includeSpace, x, c);
    }
  }

  lemma {:induction false} Counterexample(markers: seq<Marker>, includeSpace: bool, x: char, c: char)
    returns (text: string)
    requires Shown(markers) && Neutral(x, markers) && !OnePair(c, markers)
    ensures !Faithful(text, markers, includeSpace)
  {
    if HitCount(c, markers, 0) <= 1 { SharedHits(c, markers, 0); }
    var k := OpenerOpens(markers);
    var o := markers[k].start;
    if OnePair(o, markers) {
      var n := |markers|;
      Opened(o, markers, k, n, includeSpace);
      DeltaBound(c, markers, 0);
      SharedUnfaithful(Rep(o, n), x, c, markers, includeSpace);
      text := Rep(o, n) + [x] + [c];
    } else {
      if HitCount(o, markers, 0) <= 1 { SharedHits(o, markers, 0); }
      assert NeverBelow([], markers);
      SharedUnfaithful([], x, o, markers, includeSpace);
      text := [] + [x] + [o];
    }
  }

  /** A pair that starts with a space and another that can open: with spaces after colons,
      the opener, a colon and the end of that pair lose the colon. */
  lemma {:induction false} SpacePairLoses(markers: seq<Marker>, i: nat, k: nat)
    requires i < |markers| && k < |markers| && markers[i].start == ' ' && markers[i].end != ' '
      && markers[k].start != ' '
    requires OnePair(markers[k].start, markers) && OnePair(markers[i].end, markers)
    requires forall j | 0 <= j < |markers| :: !Hits(':', markers[j])
    ensures var text := [markers[k].start, ':', markers[i].end];
            && NeverBelow(text, markers) && Scan(text, markers, true).Some?
            && Erase(Scan(text, markers, true).value.result) != Erase(text)
  {
    var o, e := markers[k].start, markers[i].end;
    var text := [o, ':', e];
    var s0 := St([], 0, ' ', false);
    assert Hits(o, markers[k]) && Hits(e, markers[i]);
    assert text[..1] == [o] && text[..2] == [o, ':'] && text[..3] == text && text[..0] == [];
    ThreeLevels(o, e, markers, i, k);
    var s1 := OpenBlock(s0.(inString := o == '"'), o, true).(prev := o);
    MarkOnce(s0.(inString := o == '"'), o, markers, 0, k, true);
    ScanMore([], o, markers, true, s0);
    assert [] + [o] == [o];
    NoMore(s1, ':', markers, 0, true);
    var s2 := s1.(result := s1.result + [':', ' '], prev := ' ');
    ScanMore([o], ':', markers, true, s1);
    assert [o] + [':'] == [o, ':'];
    var cur := s2.(inString := if e == '"' then !s2.inString else s2.inString);
    ColonPopped(cur, o, markers[i]);
    MarkOnce(cur, e, markers, 0, i, true);
    ScanMore([o, ':'], e, markers, true, s2);
    assert [o, ':'] + [e] == text;
    EraseThree(o, e);
  }

  lemma {:induction false} ThreeLevels(o: char, e: char, markers: seq<Marker>, i: nat, k: nat)
    requires i < |markers| && k < |markers| && markers[i].start == ' ' && markers[i].end == e != ' '
      && markers[k].start == o != ' '
    requires OnePair(o, markers) && OnePair(e, markers) && forall j | 0 <= j < |markers| :: !Hits(':', markers[j])
    ensures NeverBelow([o, ':', e], markers)
  {
    var st := St([], 0, ' ', false);
    MarkOnce(st, o, markers, 0, k, true);
    MarkOnce(st, e, markers, 0, i, true);
    NoMore(st, ':', markers, 0, true);
    assert [o][..0] == [] && [o, ':'][..1] == [o] && [o, ':', e][..2] == [o, ':'];
    assert Level([], markers) == 0 && Level([o], markers) == 1;
    assert Level([o, ':'], markers) == 1;
    PrefixLevels([o, ':', e], markers);
    PrefixLevels([o, ':'], markers);
    PrefixLevels([o], markers);
    assert NeverBelow([], markers);
  }

  lemma {:induction false} ColonPopped(st: St, o: char, m: Marker)
    requires st.depth == 1 && st.prev == ' ' == m.start && st.result == [o] + "\n" + Spaces(4) + [':', ' ']
    ensures CloseBlock(st, m).Some? && CloseBlock(st, m).value.result == [o] + "\n" + Spaces(1) + [m.end]
  {
    PopIsPrefix(st.result, 5);
    assert st.result[..3] == [o] + "\n" + Spaces(1);
  }

  lemma {:induction false} EraseThree(o: char, e: char)
    ensures Erase([o] + "\n" + Spaces(1) + [e]) != Erase([o, ':', e])
  {
    var kept := [o] + "\n" + Spaces(1);
    NewLine([o], 1);
    EraseAppend(kept, [e]);
    assert [o, ':', e] == [o] + ":" + [e];
    EraseAppend([o], ":");
    EraseAppend([o] + ":", [e]);
    assert Erase(":") == ":" by { assert ":"[..0] == []; }
  }

  /** Such a pair beside the round brackets. */
  lemma {:induction false} SpacePair()
    ensures var out := Scan("(:)", [Marker('(', ']'), Marker(' ', ')')], true);
            out.Some? && Erase(out.value.result) != Erase("(:)")
  {
    var ms := [Marker('(', ']'), Marker(' ', ')')];
    SpacePairLoses(ms, 1, 0);
    assert "(:)" == [ms[0].start, ':', ms[1].end];
  }

  // -------------------------------------------------------------- spaces and lines

  function Quotes(text: string): nat {
    if text == [] then 0 else Quotes(text[..|text| - 1]) + if text[|text| - 1] == '"' then 1 else 0
  }

  lemma {:induction false} MarkInString(st: St, c: char, markers: seq<Marker>, i: nat, includeSpace: bool)
    requires i <= |markers|
    ensures var r := Mark(st, c, markers, i, includeSpace); r.Some? ==> r.value.0.inString == st.inString
    decreases |markers| - i
  {
    if i < |markers| {
      if c == markers[i].start { MarkInString(OpenBlock(st, c, includeSpace), c, markers, i + 1, includeSpace); }
      else if c != markers[i].end { MarkInString(st, c, markers, i + 1, includeSpace); }
      else if st.depth > 0 { MarkInString(CloseBlock(st, markers[i]).value, c, markers, i + 1, includeSpace); }
    }
  }

  /** A string literal is open exactly after an odd number of quotes. */
  lemma {:induction false} InStringIff(text: string, markers: seq<Marker>, includeSpace: bool)
    requires Scan(text, markers, includeSpace).Some?
    ensures Scan(text, markers, includeSpace).value.inString <==> Quotes(text) % 2 == 1
  {
    if text != [] {
      var init, c := text[..|text| - 1], text[|text| - 1];
      InStringIff(init, markers, includeSpace);
      var st := Scan(init, markers, includeSpace).value;
      if c != ' ' {
        MarkInString(st.(inString := if c == '"' then !st.inString else st.inString), c, markers, 0, includeSpace);
      }
    }
  }

  /** Outside string literals spaces are dropped, inside they are kept. */
  lemma SpaceKeptIff(text: string, markers: seq<Marker>, includeSpace: bool)
    requires Scan(text, markers, includeSpace).Some?
    ensures var out, next := Scan(text, markers, includeSpace).value, Scan(text + [' '], markers, includeSpace);
            next.Some? && next.value.result == if Quotes(text) % 2 == 1 then out.result + [' '] else out.result
  {
    InStringIff(text, markers, includeSpace);
    ScanMore(text, ' ', markers, includeSpace, Scan(text, markers, includeSpace).value);
  }

  /** A character that is copied where it stands. */
  predicate Copied(c: char, markers: seq<Marker>) {
    c != ' ' && c != ',' && c != ':' && forall j | 0 <= j < |markers| :: !Hits(c, markers[j])
  }

  lemma {:induction false} CopiedMore(text: string, c: char, markers: seq<Marker>, includeSpace: bool)
    requires Scan(text, markers, includeSpace).Some? && Copied(c, markers)
    ensures var out, next := Scan(text, markers, includeSpace).value, Scan(text + [c], markers, includeSpace);
            next.Some? && next.value.result == out.result + [c] && next.value.depth == out.depth
  {
    var st := Scan(text, markers, includeSpace).value;
    var cur := st.(inString := if c == '"' then !st.inString else st.inString);
    ScanMore(text, c, markers, includeSpace, st);
    NoMore(cur, c, markers, 0, includeSpace);
  }

  /** Everything in it is copied inside a string literal. */
  predicate Quotable(s: string, markers: seq<Marker>) {
    forall i | 0 <= i < |s| :: s[i] == ' ' || (s[i] != '"' && Copied(s[i], markers))
  }

  lemma {:induction false} QuotedInside(text: string, s: string, markers: seq<Marker>, includeSpace: bool)
    requires Scan(text, markers, includeSpace).Some? && Quotes(text) % 2 == 1 && Quotable(s, markers)
    ensures Scan(text + s, markers, includeSpace).Some? && Quotes(text + s) == Quotes(text)
    ensures Scan(text + s, markers, includeSpace).value.result == Scan(text, markers, includeSpace).value.result + s
  {
    if s == [] {
      assert text + s == text;
    } else {
      var init, c := s[..|s| - 1], s[|s| - 1];
      QuotedInside(text, init, markers, includeSpace);
      QuotedOne(text + init, c, markers, includeSpace);
      Snoc(text, s);
      Snoc(Scan(text, markers, includeSpace).value.result, s);
    }
  }

  lemma Snoc(a: string, s: string)
    requires s != []
    ensures (a + s[..|s| - 1]) + [s[|s| - 1]] == a + s
  {
  }

  lemma {:induction false} QuotedOne(text: string, c: char, markers: seq<Marker>, includeSpace: bool)
    requires Scan(text, markers, includeSpace).Some? && Quotes(text) % 2 == 1
    requires c == ' ' || (c != '"' && Copied(c, markers))
    ensures Scan(text + [c], markers, includeSpace).Some? && Quotes(text + [c]) == Quotes(text)
    ensures Scan(text + [c], markers, includeSpace).value.result == Scan(text, markers, includeSpace).value.result + [c]
  {
    assert (text + [c])[..|text|] == text;
    if c == ' ' { SpaceKeptIff(text, markers, includeSpace); } else { CopiedMore(text, c, markers, includeSpace); }
  }

  /** A string literal without markers, commas and colons comes out as it is, spaces included. */
  lemma {:induction false} LiteralKept(text: string, s: string, markers: seq<Marker>, includeSpace: bool)
    requires Scan(text, markers, includeSpace).Some? && Quotes(text) % 2 == 0 && Copied('"', markers)
    requires Quotable(s, markers)
    ensures Scan(text + ['"'] + s + ['"'], markers, includeSpace).Some?
    ensures Scan(text + ['"'] + s + ['"'], markers, includeSpace).value.result
         == Scan(text, markers, includeSpace).value.result + ['"'] + s + ['"']
  {
    var begun := text + ['"'];
    CopiedMore(text, '"', markers, includeSpace);
    assert begun[..|begun| - 1] == text;
    QuotedInside(begun, s, markers, includeSpace);
    CopiedMore(begun + s, '"', markers, includeSpace);
  }

  predicate EndsIn(s: string, end: string) { |end| <= |s| && s[|s| - |end|..] == end }

  /** In no pair. */
  predicate Free(c: char, markers: seq<Marker>) { forall j | 0 <= j < |markers| :: !Hits(c, markers[j]) }

  /** The character closes a block of the pair, and not right behind its opener. */
  predicate Closes(text: string, c: char, markers: seq<Marker>, k: nat, includeSpace: bool)
    requires k < |markers| && Scan(text, markers, includeSpace).Some?
  {
    c == markers[k].end != markers[k].start && Scan(text, markers, includeSpace).value.prev != markers[k].start
  }

  /** The state in which the markers meet the next character. */
  function Meets(st: St, c: char): St { st.(inString := if c == '"' then !st.inString else st.inString) }

  /** A text the level of whose open blocks is known. */
  predicate Plainly(text: string, markers: seq<Marker>, includeSpace: bool) {
    && SpaceSafe(markers, includeSpace) && (forall d | d in text :: OnePair(d, markers))
    && Scan(text, markers, includeSpace).Some?
  }

  lemma DepthIsLevel(text: string, markers: seq<Marker>, includeSpace: bool)
    requires Plainly(text, markers, includeSpace)
    ensures Scan(text, markers, includeSpace).value.depth == Level(text, markers)
  {
    FormatFaithful(text, markers, includeSpace);
  }

  /** After an opener the next line is indented by four spaces per open block. */
  lemma {:induction false} OpenerLine(text: string, c: char, markers: seq<Marker>, includeSpace: bool)
    requires Plainly(text, markers, includeSpace) && OnePair(c, markers) && IsStart(c, markers) && c != ' '
    ensures Level(text, markers) >= 0
    ensures var out := Scan(text + [c], markers, includeSpace);
            out.Some? && EndsIn(out.value.result, [c] + "\n" + Spaces(4 * (Level(text, markers) + 1)))
  {
    var st := Scan(text, markers, includeSpace).value;
    var k :| 0 <= k < |markers| && markers[k].start == c;
    DepthIsLevel(text, markers, includeSpace);
    OpenerScan(text, c, markers, k, includeSpace);
    OpenedLine(Meets(st, c), c, includeSpace);
  }

  lemma {:induction false} OpenerScan(text: string, c: char, markers: seq<Marker>, k: nat, includeSpace: bool)
    requires Scan(text, markers, includeSpace).Some? && OnePair(c, markers) && c != ' '
    requires k < |markers| && markers[k].start == c
    ensures Scan(text + [c], markers, includeSpace)
         == Some(OpenBlock(Meets(Scan(text, markers, includeSpace).value, c), c, includeSpace).(prev := c))
  {
    var st := Scan(text, markers, includeSpace).value;
    ScanMore(text, c, markers, includeSpace, st);
    MarkOnce(Meets(st, c), c, markers, 0, k, includeSpace);
  }

  /** So is the line after a comma inside a block. */
  lemma {:induction false} CommaIndents(text: string, markers: seq<Marker>, includeSpace: bool)
    requires Plainly(text, markers, includeSpace) && Free(',', markers) && Level(text, markers) > 0
    ensures var out := Scan(text + [','], markers, includeSpace);
            out.Some? && EndsIn(out.value.result, ",\n" + Spaces(4 * Level(text, markers)))
  {
    var st := Scan(text, markers, includeSpace).value;
    var line := ",\n" + Spaces(INDENTATION * st.depth);
    DepthIsLevel(text, markers, includeSpace);
    ScanMore(text, ',', markers, includeSpace, st);
    NoMore(st, ',', markers, 0, includeSpace);
    assert Popped(st) + ",\n" + Spaces(INDENTATION * st.depth) == Popped(st) + line;
    AppendLine(Popped(st), line);
  }

  /** A closer stands on a line of its own, indented by the blocks left open. */
  lemma {:induction false} CloserLine(text: string, c: char, markers: seq<Marker>, k: nat, includeSpace: bool)
    requires Plainly(text, markers, includeSpace) && OnePair(c, markers) && c != ' ' && Level(text, markers) > 0
    requires k < |markers| && Closes(text, c, markers, k, includeSpace)
    ensures var out := Scan(text + [c], markers, includeSpace);
            out.Some? && EndsIn(out.value.result, ",\n" + Spaces(4 * (Level(text, markers) - 1)) + [c])
  {
    var st := Scan(text, markers, includeSpace).value;
    DepthIsLevel(text, markers, includeSpace);
    ScanMore(text, c, markers, includeSpace, st);
    MarkOnce(Meets(st, c), c, markers, 0, k, includeSpace);
    ClosedLineEnds(Meets(st, c), markers[k]);
  }

  lemma AppendLine(s: string, line: string)
    ensures EndsIn(s + line, line)
  {
  }

  lemma OpenedLine(st: St, c: char, includeSpace: bool)
    ensures EndsIn(OpenBlock(st, c, includeSpace).result, [c] + "\n" + Spaces(INDENTATION * (st.depth + 1)))
  {
    var spaced := if st.prev != ' ' && includeSpace then st.result + " " else st.result;
    var line := [c] + "\n" + Spaces(INDENTATION * (st.depth + 1));
    assert OpenBlock(st, c, includeSpace).result == spaced + line;
  }

  lemma ClosedLineEnds(st: St, m: Marker)
    requires st.depth > 0 && st.prev != m.start
    ensures CloseBlock(st, m).Some?
    ensures EndsIn(CloseBlock(st, m).value.result, ",\n" + Spaces(INDENTATION * (st.depth - 1)) + [m.end])
  {
    var line := ",\n" + Spaces(INDENTATION * (st.depth - 1)) + [m.end];
    assert CloseBlock(st, m).value.result == Popped(st) + line;
  }

  /** An empty block stays on its line. */
  lemma {:induction false} EmptyBlock(text: string, markers: seq<Marker>, k: nat, includeSpace: bool)
    requires Scan(text, markers, includeSpace).Some? && k < |markers| && markers[k].start != ' '
      && markers[k].end != ' '
    requires markers[k].start != markers[k].end
    requires OnePair(markers[k].start, markers) && OnePair(markers[k].end, markers)
    ensures var o, e, st := markers[k].start, markers[k].end, Scan(text, markers, includeSpace).value;
            var out := Scan(text + [o] + [e], markers, includeSpace);
            && out.Some? && out.value.depth == st.depth
            && out.value.result == (if st.prev != ' ' && includeSpace then st.result + " " else st.result) + [o, e]
  {
    var o, e, st := markers[k].start, markers[k].end, Scan(text, markers, includeSpace).value;
    ScanMore(text, o, markers, includeSpace, st);
    MarkOnce(Meets(st, o), o, markers, 0, k, includeSpace);
    var begun := OpenBlock(Meets(st, o), o, includeSpace).(prev := o);
    ScanMore(text + [o], e, markers, includeSpace, begun);
    MarkOnce(Meets(begun, e), e, markers, 0, k, includeSpace);
    ClosedAtOnce(st, Meets(begun, e), markers[k], includeSpace);
  }

  lemma {:induction false} ClosedAtOnce(st: St, begun: St, m: Marker, includeSpace: bool)
    requires begun.result == OpenBlock(st, m.start, includeSpace).result
    requires begun.depth == st.depth + 1 && begun.prev == m.start
    ensures CloseBlock(begun, m).Some? && CloseBlock(begun, m).value.depth == st.depth
    ensures CloseBlock(begun, m).value.result
         == (if st.prev != ' ' && includeSpace then st.result + " " else st.result) + [m.start, m.end]
  {
    var spaced := if st.prev != ' ' && includeSpace then st.result + " " else st.result;
    var n := INDENTATION * (st.depth + 1) + 1;
    assert INDENTATION * st.depth + 1 + INDENTATION == n;
    PopIsPrefix(begun.result, n);
    assert begun.result[..|begun.result| - n] == spaced + [m.start];
    assert spaced + [m.start] + [m.end] == spaced + [m.start, m.end];
  }
}
