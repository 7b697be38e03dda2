/** The placeholder scanner: a hand-written equivalent of the regular
    expression `\{\{\s*([\w\d._-]+)\s*\}\}` searched leftmost-first and
    without overlap, as the engine's render loop walks a template.

    A template is cut into literal text and placeholders (`ScanFrom`);
    `Print` glues the pieces back. The two are inverse: `ScanPrint` shows no
    text is lost, `PrintScan` that a well-formed list of pieces is recovered
    from its text. */
module Scanner {
  import opened Wrappers

  /** The characters `\s` matches: the Unicode White_Space property. */
  predicate IsSpace(c: char) {
    || ('\t' <= c <= '\r')
    || c == ' '
    || c == '\U{0085}'
    || c == '\U{00A0}'
    || c == '\U{1680}'
    || ('\U{2000}' <= c <= '\U{200A}')
    || c == '\U{2028}'
    || c == '\U{2029}'
    || c == '\U{202F}'
    || c == '\U{205F}'
    || c == '\U{3000}'
  }

  /** The characters a key is made of: word characters, digits, `.`, `_`
      and `-` (word characters restricted to ASCII in this model). */
  predicate IsKeyChar(c: char) {
    || ('a' <= c <= 'z')
    || ('A' <= c <= 'Z')
    || ('0' <= c <= '9')
    || c == '_'
    || c == '.'
    || c == '-'
  }

  /** The two character classes of the placeholder syntax. */
  datatype CharClass = Space | KeyChar

  predicate In(c: char, p: CharClass) {
    match p
    case Space => IsSpace(c)
    case KeyChar => IsKeyChar(c)
  }

  /** The end of the run of `p` characters that starts at `i`. */
  function Skip(s: string, i: nat, p: CharClass): (j: nat)
    requires i <= |s|
    ensures i <= j <= |s|
    decreases |s| - i
  {
    if i < |s| && In(s[i], p) then Skip(s, i + 1, p) else i
  }

  /** `Skip` stops at the first character outside the class, having passed
      only characters inside it. */
  lemma {:induction false} SkipRun(s: string, i: nat, p: CharClass)
    requires i <= |s|
    ensures forall k | i <= k < Skip(s, i, p) :: In(s[k], p)
    ensures Skip(s, i, p) == |s| || !In(s[Skip(s, i, p)], p)
    decreases |s| - i
  {
    if i < |s| && In(s[i], p) {
      SkipRun(s, i + 1, p);
    }
  }

  /** A run has only one end: any `j` that closes the run at `i` is `Skip`'s. */
  lemma SkipUnique(s: string, i: nat, j: nat, p: CharClass)
    requires i <= j <= |s|
    requires forall k | i <= k < j :: In(s[k], p)
    requires j == |s| || !In(s[j], p)
    ensures Skip(s, i, p) == j
  {
    SkipRun(s, i, p);
  }

  /** Positions of one placeholder: `{{` at `start`, the key in
      `[keyStart, keyEnd)`, `}}` ending at `end`. */
  datatype Match = Match(start: nat, keyStart: nat, keyEnd: nat, end: nat)

  function ShiftMatch(m: Match, d: nat): Match {
    Match(m.start + d, m.keyStart + d, m.keyEnd + d, m.end + d)
  }

  /** The positions of `m` are in order and inside `s`. */
  predicate InBounds(s: string, m: Match) {
    m.start + 2 <= m.keyStart < m.keyEnd && m.keyEnd + 2 <= m.end <= |s|
  }

  /** `m` describes text in `s` of the shape `{{`, spaces, one or more key
      characters, spaces, `}}`. */
  ghost predicate Placeholder(s: string, m: Match) {
    && InBounds(s, m)
    && s[m.start] == '{' && s[m.start + 1] == '{'
    && (forall k | m.start + 2 <= k < m.keyStart :: IsSpace(s[k]))
    && (forall k | m.keyStart <= k < m.keyEnd :: IsKeyChar(s[k]))
    && (forall k | m.keyEnd <= k < m.end - 2 :: IsSpace(s[k]))
    && s[m.end - 2] == '}' && s[m.end - 1] == '}'
  }

  /** The placeholder that starts exactly at `i`, if there is one. */
  function MatchAt(s: string, i: nat): (r: Option<Match>)
    requires i <= |s|
    ensures r.Some? ==> r.value.start == i && InBounds(s, r.value)
  {
    if i + 1 < |s| && s[i] == '{' && s[i + 1] == '{' then
      var a := Skip(s, i + 2, Space);
      var b := Skip(s, a, KeyChar);
      var c := Skip(s, b, Space);
      if a < b && c + 1 < |s| && s[c] == '}' && s[c + 1] == '}' then
        Some(Match(i, a, b, c + 2))
      else None
    else None
  }

  /** `MatchAt` misses nothing: whatever placeholder starts at a position is
      the one it returns, so at each position there is at most one. */
  lemma MatchAtComplete(s: string, m: Match)
    requires Placeholder(s, m)
    ensures MatchAt(s, m.start) == Some(m)
  {
    SkipUnique(s, m.start + 2, m.keyStart, Space);
    SkipUnique(s, m.keyStart, m.keyEnd, KeyChar);
    SkipUnique(s, m.keyEnd, m.end - 2, Space);
  }

  /** What `MatchAt` returns is a placeholder. */
  lemma MatchAtSound(s: string, i: nat)
    requires i <= |s|
    ensures MatchAt(s, i).Some? ==> Placeholder(s, MatchAt(s, i).value)
  {
    if i + 1 < |s| && s[i] == '{' && s[i + 1] == '{' {
      var a := Skip(s, i + 2, Space);
      var b := Skip(s, a, KeyChar);
      SkipRun(s, i + 2, Space);
      SkipRun(s, a, KeyChar);
      SkipRun(s, b, Space);
    }
  }

  /** The leftmost placeholder starting at or after `i`. */
  function FindFrom(s: string, i: nat): (r: Option<Match>)
    requires i <= |s|
    ensures r.Some? ==> i <= r.value.start && InBounds(s, r.value)
    decreases |s| - i
  {
    var here := MatchAt(s, i);
    if here.Some? then here
    else if i == |s| then None
    else FindFrom(s, i + 1)
  }

  /** `FindFrom` returns the placeholder at the smallest position at or
      after `i` where one starts, and nothing when none does. */
  lemma {:induction false} FindFromLeftmost(s: string, i: nat)
    requires i <= |s|
    ensures FindFrom(s, i).Some? ==> MatchAt(s, FindFrom(s, i).value.start) == FindFrom(s, i)
    ensures FindFrom(s, i).Some? ==>
      forall j | i <= j < FindFrom(s, i).value.start :: MatchAt(s, j).None?
    ensures FindFrom(s, i).None? ==> forall j | i <= j <= |s| :: MatchAt(s, j).None?
    decreases |s| - i
  {
    if MatchAt(s, i).None? && i < |s| {
      FindFromLeftmost(s, i + 1);
    }
  }

  /** A template piece: literal text, or a placeholder with the spaces
      around its key. */
  datatype Segment = Lit(text: string) | Hole(lead: string, key: string, trail: string)

  /** The text a piece stands for. */
  function Text(seg: Segment): string {
    match seg
    case Lit(t) => t
    case Hole(lead, key, trail) => "{{" + lead + key + trail + "}}"
  }

  function Print(segs: seq<Segment>): string {
    if segs == [] then "" else Text(segs[0]) + Print(segs[1..])
  }

  /** The piece a placeholder occurrence stands for. */
  function HoleOf(s: string, m: Match): Segment
    requires InBounds(s, m)
  {
    Hole(s[m.start + 2..m.keyStart], s[m.keyStart..m.keyEnd], s[m.keyEnd..m.end - 2])
  }

  /** Cut `s[from..]` into pieces: the literal text before the leftmost
      placeholder (if not empty), the placeholder, then the rest, cut the
      same way from the placeholder's end. */
  function ScanFrom(s: string, from: nat): seq<Segment>
    requires from <= |s|
    decreases |s| - from
  {
    match FindFrom(s, from)
    case None => Before(s, from, |s|)
    case Some(m) => Before(s, from, m.start) + [HoleOf(s, m)] + ScanFrom(s, m.end)
  }

  /** The literal piece for `s[from..upto]`, or nothing when it is empty. */
  function Before(s: string, from: nat, upto: nat): seq<Segment>
    requires from <= upto <= |s|
  {
    if from == upto then [] else [Lit(s[from..upto])]
  }

  function Scan(s: string): seq<Segment> {
    ScanFrom(s, 0)
  }

  // ---------------------------------------------------------------------
  // Well-formed piece lists

  /** Literal text that holds no placeholder of its own. */
  ghost predicate PlainText(t: string) {
    forall j | 0 <= j < |t| :: MatchAt(t, j).None?
  }

  ghost predicate SegmentOk(seg: Segment) {
    match seg
    case Lit(t) => |t| > 0 && PlainText(t)
    case Hole(lead, key, trail) =>
      && (forall k | 0 <= k < |lead| :: IsSpace(lead[k]))
      && |key| > 0
      && (forall k | 0 <= k < |key| :: IsKeyChar(key[k]))
      && (forall k | 0 <= k < |trail| :: IsSpace(trail[k]))
  }

  /** Every piece is valid and no two literals are adjacent (they would be
      one literal). */
  ghost predicate WellFormed(segs: seq<Segment>) {
    && (forall i | 0 <= i < |segs| :: SegmentOk(segs[i]))
    && (forall i | 0 <= i < |segs| - 1 :: !(segs[i].Lit? && segs[i + 1].Lit?))
  }

  // ---------------------------------------------------------------------
  // Placeholders inside a slice of the text

  /** A placeholder of a slice is a placeholder of the whole text, moved by
      the slice's start, and conversely for one that ends inside the slice. */
  lemma PlaceholderSlice(s: string, lo: nat, hi: nat, m: Match)
    requires lo <= hi <= |s|
    ensures Placeholder(s[lo..hi], m) <==> m.end <= hi - lo && Placeholder(s, ShiftMatch(m, lo))
  {
    var t := s[lo..hi];
    var m' := ShiftMatch(m, lo);
    if m.end <= hi - lo {
      forall k | 0 <= k < |t|
        ensures t[k] == s[lo + k]
      {
      }
      if Placeholder(t, m) {
        forall k | m'.start + 2 <= k < m'.keyStart ensures IsSpace(s[k]) {
          assert s[k] == t[k - lo];
        }
        forall k | m'.keyStart <= k < m'.keyEnd ensures IsKeyChar(s[k]) {
          assert s[k] == t[k - lo];
        }
        forall k | m'.keyEnd <= k < m'.end - 2 ensures IsSpace(s[k]) {
          assert s[k] == t[k - lo];
        }
      }
      if Placeholder(s, m') {
        forall k | m.start + 2 <= k < m.keyStart ensures IsSpace(t[k]) {
          assert t[k] == s[lo + k];
        }
        forall k | m.keyStart <= k < m.keyEnd ensures IsKeyChar(t[k]) {
          assert t[k] == s[lo + k];
        }
        forall k | m.keyEnd <= k < m.end - 2 ensures IsSpace(t[k]) {
          assert t[k] == s[lo + k];
        }
      }
    }
  }

  /** Past its own opening braces a placeholder holds no `{`, so a
      placeholder cannot run into a following `{{`. */
  lemma PlaceholderStopsAtBraces(s: string, m: Match, e: nat)
    requires Placeholder(s, m)
    requires e + 1 < |s| && s[e] == '{' && s[e + 1] == '{'
    requires m.start < e
    ensures m.end <= e
  {
  }

  // ---------------------------------------------------------------------
  // Scanning what was printed

  /** Where the placeholder of a well-formed hole lies when the hole's text
      starts at `i`. */
  function HoleMatch(i: nat, seg: Segment): Match
    requires seg.Hole?
  {
    var keyStart := i + 2 + |seg.lead|;
    var keyEnd := keyStart + |seg.key|;
    Match(i, keyStart, keyEnd, keyEnd + |seg.trail| + 2)
  }

  lemma HolePlaceholder(s: string, i: nat, seg: Segment, tail: string)
    requires seg.Hole? && SegmentOk(seg)
    requires i <= |s| && s[i..] == Text(seg) + tail
    ensures Placeholder(s, HoleMatch(i, seg))
  {
    var m := HoleMatch(i, seg);
    HoleOfText(s, i, seg, tail);
    SpacesSlice(s, m.start + 2, m.keyStart, seg.lead);
    KeyCharsSlice(s, m.keyStart, m.keyEnd, seg.key);
    SpacesSlice(s, m.keyEnd, m.end - 2, seg.trail);
    assert s[m.start] == s[m.start..m.start + 2][0];
    assert s[m.start + 1] == s[m.start..m.start + 2][1];
    assert s[m.end - 2] == s[m.end - 2..m.end][0];
    assert s[m.end - 1] == s[m.end - 2..m.end][1];
  }

  /** A slice equal to a run of spaces is a run of spaces. */
  lemma SpacesSlice(s: string, lo: nat, hi: nat, w: string)
    requires lo <= hi <= |s| && s[lo..hi] == w
    requires forall k | 0 <= k < |w| :: IsSpace(w[k])
    ensures forall k | lo <= k < hi :: IsSpace(s[k])
  {
    forall k | lo <= k < hi ensures IsSpace(s[k]) {
      assert s[k] == w[k - lo];
    }
  }

  /** A slice equal to a run of key characters is one. */
  lemma KeyCharsSlice(s: string, lo: nat, hi: nat, w: string)
    requires lo <= hi <= |s| && s[lo..hi] == w
    requires forall k | 0 <= k < |w| :: IsKeyChar(w[k])
    ensures forall k | lo <= k < hi :: IsKeyChar(s[k])
  {
    forall k | lo <= k < hi ensures IsKeyChar(s[k]) {
      assert s[k] == w[k - lo];
    }
  }

  /** Text printed at `i` as `b + c` splits at `i + |b|`. */
  lemma Infix(s: string, i: nat, b: string, c: string)
    requires i <= |s| && s[i..] == b + c
    ensures i + |b| <= |s|
    ensures s[i..i + |b|] == b && s[i + |b|..] == c
  {
    assert s[i..][..|b|] == b;
    assert s[i..][|b|..] == c;
  }

  lemma TextAssoc(seg: Segment, tail: string)
    requires seg.Hole?
    ensures Text(seg) + tail == "{{" + (seg.lead + (seg.key + (seg.trail + ("}}" + tail))))
  {
  }

  /** The pieces of a hole's text are cut back out of it. */
  lemma HoleOfText(s: string, i: nat, seg: Segment, tail: string)
    requires seg.Hole? && |seg.key| > 0
    requires i <= |s| && s[i..] == Text(seg) + tail
    ensures InBounds(s, HoleMatch(i, seg))
    ensures HoleOf(s, HoleMatch(i, seg)) == seg
    ensures s[HoleMatch(i, seg).end..] == tail
    ensures s[i..i + 2] == "{{" && s[HoleMatch(i, seg).end - 2..HoleMatch(i, seg).end] == "}}"
  {
    var x4 := "}}" + tail;
    var x3 := seg.trail + x4;
    var x2 := seg.key + x3;
    var x1 := seg.lead + x2;
    TextAssoc(seg, tail);
    var a := i + 2;
    var b := a + |seg.lead|;
    var c := b + |seg.key|;
    var d := c + |seg.trail|;
    Infix(s, i, "{{", x1);
    Infix(s, a, seg.lead, x2);
    Infix(s, b, seg.key, x3);
    Infix(s, c, seg.trail, x4);
    Infix(s, d, "}}", tail);
    assert HoleMatch(i, seg) == Match(i, b, c, d + 2);
  }

  /** A well-formed hole printed at `i` is the placeholder found at `i`, and
      it stands for that hole. */
  lemma HoleAt(s: string, i: nat, seg: Segment, tail: string)
    requires seg.Hole? && SegmentOk(seg)
    requires i <= |s| && s[i..] == Text(seg) + tail
    ensures MatchAt(s, i) == Some(HoleMatch(i, seg))
    ensures HoleOf(s, HoleMatch(i, seg)) == seg
    ensures s[HoleMatch(i, seg).end..] == tail
  {
    HolePlaceholder(s, i, seg, tail);
    MatchAtComplete(s, HoleMatch(i, seg));
    HoleOfText(s, i, seg, tail);
  }

  /** A placeholder inside a slice is found by scanning the slice. */
  lemma PlaceholderInSlice(s: string, lo: nat, hi: nat, m: Match)
    requires Placeholder(s, m)
    requires lo <= m.start && m.end <= hi <= |s|
    ensures MatchAt(s[lo..hi], m.start - lo).Some?
  {
    var back := Match(m.start - lo, m.keyStart - lo, m.keyEnd - lo, m.end - lo);
    assert ShiftMatch(back, lo) == m;
    PlaceholderSlice(s, lo, hi, back);
    MatchAtComplete(s[lo..hi], back);
  }

  /** A placeholder that starts inside text followed by `{{` or by the end
      of the template ends inside that text. */
  lemma PlaceholderEndsInLit(s: string, i: nat, t: string, tail: string, m: Match)
    requires Placeholder(s, m)
    requires i <= |s| && s[i..] == t + tail
    requires tail == [] || (|tail| >= 2 && tail[0] == '{' && tail[1] == '{')
    requires m.start < i + |t|
    ensures m.end <= i + |t|
  {
    if tail != [] {
      assert s[i + |t|] == tail[0] && s[i + |t| + 1] == tail[1] by {
        assert s[i..][|t|] == tail[0] && s[i..][|t| + 1] == tail[1];
      }
      PlaceholderStopsAtBraces(s, m, i + |t|);
    }
  }

  /** No placeholder starts at `j` inside plain text `t` printed at `i`
      that is followed by the end of the template or by a `{{`. */
  lemma LitAtOne(s: string, i: nat, t: string, tail: string, j: nat)
    requires PlainText(t)
    requires i <= |s| && s[i..] == t + tail
    requires tail == [] || (|tail| >= 2 && tail[0] == '{' && tail[1] == '{')
    requires i <= j < i + |t|
    ensures MatchAt(s, j).None?
  {
    if MatchAt(s, j).Some? {
      var m := MatchAt(s, j).value;
      MatchAtSound(s, j);
      PlaceholderEndsInLit(s, i, t, tail, m);
      assert s[i..i + |t|] == t by {
        assert s[i..][..|t|] == t;
      }
      PlaceholderInSlice(s, i, i + |t|, m);
    }
  }

  lemma LitAt(s: string, i: nat, t: string, tail: string)
    requires PlainText(t)
    requires i <= |s| && s[i..] == t + tail
    requires tail == [] || (|tail| >= 2 && tail[0] == '{' && tail[1] == '{')
    ensures forall j | i <= j < i + |t| :: MatchAt(s, j).None?
  {
    forall j | i <= j < i + |t|
      ensures MatchAt(s, j).None?
    {
      LitAtOne(s, i, t, tail, j);
    }
  }

  /** The search for the next placeholder passes over positions where none
      starts. */
  lemma {:induction false} FindFromPast(s: string, i: nat, k: nat)
    requires i <= k <= |s|
    requires forall j | i <= j < k :: MatchAt(s, j).None?
    ensures FindFrom(s, i) == FindFrom(s, k)
    decreases k - i
  {
    if i < k {
      FindFromPast(s, i + 1, k);
    }
  }

  lemma WellFormedDrop(segs: seq<Segment>, k: nat)
    requires WellFormed(segs) && k <= |segs|
    ensures WellFormed(segs[k..])
  {
    var d := segs[k..];
    assert forall i | 0 <= i < |d| :: d[i] == segs[k + i];
  }

  /** One scanning step over a hole printed at `i`. */
  lemma ScanHoleStep(s: string, i: nat, seg: Segment, tail: string)
    requires seg.Hole? && SegmentOk(seg)
    requires i <= |s| && s[i..] == Text(seg) + tail
    ensures HoleMatch(i, seg).end <= |s|
    ensures s[HoleMatch(i, seg).end..] == tail
    ensures ScanFrom(s, i) == [seg] + ScanFrom(s, HoleMatch(i, seg).end)
  {
    HoleAt(s, i, seg, tail);
    ScanFromAt(s, i, HoleMatch(i, seg));
  }

  /** Scanning from where a placeholder starts cuts it off first. */
  lemma ScanFromAt(s: string, i: nat, m: Match)
    requires i <= |s| && MatchAt(s, i) == Some(m)
    ensures m.end <= |s|
    ensures ScanFrom(s, i) == [HoleOf(s, m)] + ScanFrom(s, m.end)
  {
    FindFromHere(s, i);
    assert Before(s, i, m.start) == [];
  }

  /** One scanning step over a literal printed at `i` that ends the text. */
  lemma ScanLastLitStep(s: string, i: nat, t: string)
    requires |t| > 0 && PlainText(t)
    requires i <= |s| && s[i..] == t
    ensures ScanFrom(s, i) == [Lit(t)]
  {
    LitAt(s, i, t, "");
    FindFromPast(s, i, |s|);
    assert MatchAt(s, |s|).None?;
    assert FindFrom(s, |s|).None?;
    ScanFromNone(s, i);
    assert s[i..|s|] == t;
  }

  /** The search passes over plain text followed by a `{{`. */
  lemma LitSkip(s: string, i: nat, t: string, rest: string) returns (j: nat)
    requires PlainText(t)
    requires i <= |s| && s[i..] == t + rest
    requires |rest| >= 2 && rest[0] == '{' && rest[1] == '{'
    ensures j == i + |t| && j <= |s|
    ensures FindFrom(s, i) == FindFrom(s, j)
  {
    LitAt(s, i, t, rest);
    j := i + |t|;
    FindFromPast(s, i, j);
  }

  /** Scanning from `i` when the next placeholder starts later: the
      literal before it, its hole, and what follows. */
  lemma ScanFromBefore(s: string, i: nat, m: Match, t: string, seg: Segment)
    requires i <= |s| && FindFrom(s, i) == Some(m) && i < m.start
    requires m.start <= |s| && s[i..m.start] == t
    requires InBounds(s, m) && HoleOf(s, m) == seg
    ensures m.end <= |s|
    ensures ScanFrom(s, i) == [Lit(t), seg] + ScanFrom(s, m.end)
  {
  }

  /** The search stops at once where a placeholder starts. */
  lemma FindFromHere(s: string, i: nat)
    requires i <= |s| && MatchAt(s, i).Some?
    ensures FindFrom(s, i) == MatchAt(s, i)
  {
  }

  /** The text of a hole opens with `{{`, whatever follows it. */
  lemma HoleTextOpens(seg: Segment, tail: string)
    requires seg.Hole?
    ensures var rest := Text(seg) + tail; |rest| >= 2 && rest[0] == '{' && rest[1] == '{'
  {
    assert Text(seg) == "{{" + seg.lead + seg.key + seg.trail + "}}";
  }

  /** Plain text printed at `i` ahead of a hole: the search passes over
      it to `j`, where the hole's text starts. */
  lemma LitThenHole(s: string, i: nat, t: string, seg: Segment, tail: string) returns (j: nat)
    requires |t| > 0 && PlainText(t) && seg.Hole?
    requires i <= |s| && s[i..] == t + (Text(seg) + tail)
    ensures i < j <= |s| && j == i + |t|
    ensures s[i..j] == t && s[j..] == Text(seg) + tail
    ensures FindFrom(s, i) == FindFrom(s, j)
  {
    HoleTextOpens(seg, tail);
    Infix(s, i, t, Text(seg) + tail);
    j := LitSkip(s, i, t, Text(seg) + tail);
  }

  /** The scanning step over a literal and the well-formed hole printed
      right after it, once the text is split at `j`, where the hole starts;
      scanning goes on at `e`, where the hole ends. */
  lemma ScanLitHole(s: string, i: nat, j: nat, t: string, seg: Segment, tail: string) returns (e: nat)
    requires seg.Hole? && SegmentOk(seg)
    requires i < j <= |s| && s[i..j] == t
    requires FindFrom(s, i) == FindFrom(s, j)
    requires s[j..] == Text(seg) + tail
    ensures e <= |s| && s[e..] == tail
    ensures ScanFrom(s, i) == [Lit(t), seg] + ScanFrom(s, e)
  {
    HoleAt(s, j, seg, tail);
    FindFromHere(s, j);
    ScanFromBefore(s, i, HoleMatch(j, seg), t, seg);
    e := HoleMatch(j, seg).end;
  }

  /** The first scanning step over printed pieces that start with a hole:
      the hole is cut off, and the rest is printed where it ends. */
  lemma ScanFirstHole(s: string, i: nat, segs: seq<Segment>) returns (e: nat)
    requires WellFormed(segs) && |segs| > 0 && segs[0].Hole?
    requires i <= |s| && s[i..] == Print(segs)
    ensures e <= |s| && s[e..] == Print(segs[1..]) && WellFormed(segs[1..])
    ensures ScanFrom(s, i) == [segs[0]] + ScanFrom(s, e)
  {
    ScanHoleStep(s, i, segs[0], Print(segs[1..]));
    WellFormedDrop(segs, 1);
    e := HoleMatch(i, segs[0]).end;
  }

  /** A scanning step over plain text printed at `i` and the well-formed
      hole after it: both are cut off, and scanning goes on where the hole
      ends. */
  lemma ScanLitHoleStep(s: string, i: nat, t: string, h: Segment, tail: string) returns (e: nat)
    requires |t| > 0 && PlainText(t) && h.Hole? && SegmentOk(h)
    requires i <= |s| && s[i..] == t + (Text(h) + tail)
    ensures e <= |s| && s[e..] == tail
    ensures ScanFrom(s, i) == [Lit(t), h] + ScanFrom(s, e)
  {
    var j := LitThenHole(s, i, t, h, tail);
    e := ScanLitHole(s, i, j, t, h, tail);
  }

  /** The first scanning step over printed pieces that start with a
      literal followed by a hole: both are cut off, and the rest is printed
      where the hole ends. */
  lemma ScanFirstLitHole(s: string, i: nat, segs: seq<Segment>) returns (e: nat)
    requires WellFormed(segs) && |segs| > 1 && segs[0].Lit?
    requires i <= |s| && s[i..] == Print(segs)
    ensures e <= |s| && s[e..] == Print(segs[2..]) && WellFormed(segs[2..])
    ensures ScanFrom(s, i) == [segs[0], segs[1]] + ScanFrom(s, e)
  {
    assert SegmentOk(segs[0]) && SegmentOk(segs[1]) && segs[1].Hole?;
    assert segs[1..][1..] == segs[2..];
    assert Print(segs) == segs[0].text + (Text(segs[1]) + Print(segs[2..]));
    e := ScanLitHoleStep(s, i, segs[0].text, segs[1], Print(segs[2..]));
    WellFormedDrop(segs, 2);
  }

  /** Scanning the text of a well-formed piece list gives back that list,
      wherever in a template the text starts. */
  lemma {:induction false} ScanPrinted(s: string, i: nat, segs: seq<Segment>)
    requires WellFormed(segs)
    requires i <= |s| && s[i..] == Print(segs)
    ensures ScanFrom(s, i) == segs
    decreases |segs|
  {
    if segs == [] {
      assert |s| == i;
    } else if segs[0].Hole? {
      var e := ScanFirstHole(s, i, segs);
      ScanPrinted(s, e, segs[1..]);
      assert segs == [segs[0]] + segs[1..];
    } else if |segs| == 1 {
      ScanLastLitStep(s, i, segs[0].text);
    } else {
      var e := ScanFirstLitHole(s, i, segs);
      ScanPrinted(s, e, segs[2..]);
      assert segs == [segs[0], segs[1]] + segs[2..];
    }
  }

  /** A well-formed piece list is recovered from its text. */
  lemma PrintScan(segs: seq<Segment>)
    requires WellFormed(segs)
    ensures Scan(Print(segs)) == segs
  {
    ScanPrinted(Print(segs), 0, segs);
  }

  // ---------------------------------------------------------------------
  // Printing what was scanned

  lemma {:induction false} PrintAppend(a: seq<Segment>, b: seq<Segment>)
    ensures Print(a + b) == Print(a) + Print(b)
    decreases |a|
  {
    if a == [] {
      assert a + b == b;
    } else {
      assert (a + b)[1..] == a[1..] + b;
      PrintAppend(a[1..], b);
    }
  }

  /** A placeholder occurrence is a well-formed hole whose text is the
      occurrence itself. */
  lemma HoleOfPlaceholder(s: string, m: Match)
    requires Placeholder(s, m)
    ensures SegmentOk(HoleOf(s, m))
    ensures Text(HoleOf(s, m)) == s[m.start..m.end]
  {
    var h := HoleOf(s, m);
    assert s[m.start..m.start + 2] == "{{";
    assert s[m.end - 2..m.end] == "}}";
    assert s[m.start..m.end]
      == s[m.start..m.start + 2] + h.lead + h.key + h.trail + s[m.end - 2..m.end];
  }

  /** Text with no placeholder starting anywhere in it is plain, as a
      string of its own. */
  lemma PlainSlice(s: string, lo: nat, hi: nat)
    requires lo <= hi <= |s|
    requires forall j | lo <= j < hi :: MatchAt(s, j).None?
    ensures PlainText(s[lo..hi])
  {
    var t := s[lo..hi];
    forall j | 0 <= j < |t|
      ensures MatchAt(t, j).None?
    {
      if MatchAt(t, j).Some? {
        var m := MatchAt(t, j).value;
        MatchAtSound(t, j);
        PlaceholderSlice(s, lo, hi, m);
        MatchAtComplete(s, ShiftMatch(m, lo));
      }
    }
  }

  lemma ScanFromFound(s: string, from: nat, m: Match)
    requires from <= |s| && FindFrom(s, from) == Some(m)
    ensures from <= m.start < m.end <= |s|
    ensures ScanFrom(s, from) == Before(s, from, m.start) + [HoleOf(s, m)] + ScanFrom(s, m.end)
  {
  }

  lemma ScanFromNone(s: string, from: nat)
    requires from <= |s| && FindFrom(s, from).None?
    ensures ScanFrom(s, from) == Before(s, from, |s|)
  {
  }

  /** Printing the pieces scanned from `from` gives back the text from
      `from`. */
  lemma {:induction false} ScanPrint(s: string, from: nat)
    requires from <= |s|
    ensures Print(ScanFrom(s, from)) == s[from..]
    decreases |s| - from
  {
    match FindFrom(s, from)
    case None =>
      assert s[from..|s|] == s[from..];
    case Some(m) =>
      ScanFromFound(s, from, m);
      var before := Before(s, from, m.start);
      var hole := HoleOf(s, m);
      var rest := ScanFrom(s, m.end);
      assert Text(hole) == s[m.start..m.end] by {
        FindFromLeftmost(s, from);
        MatchAtSound(s, m.start);
        HoleOfPlaceholder(s, m);
      }
      assert Print(rest) == s[m.end..] by {
        ScanPrint(s, m.end);
      }
      assert Print(before) == s[from..m.start];
      PrintAround(before, hole, rest);
      SliceThree(s, from, m.start, m.end);
  }

  lemma PrintAround(before: seq<Segment>, hole: Segment, rest: seq<Segment>)
    ensures Print(before + [hole] + rest) == Print(before) + Text(hole) + Print(rest)
  {
    assert Print([hole]) == Text(hole);
    PrintAppend(before + [hole], rest);
    PrintAppend(before, [hole]);
  }

  lemma SliceThree(s: string, a: nat, b: nat, c: nat)
    requires a <= b <= c <= |s|
    ensures s[a..] == s[a..b] + s[b..c] + s[c..]
  {
    assert s[a..] == s[a..b] + s[b..];
    assert s[b..] == s[b..c] + s[c..];
  }

  lemma WellFormedAppend(a: seq<Segment>, b: seq<Segment>)
    requires WellFormed(a) && WellFormed(b)
    requires a == [] || b == [] || !(a[|a| - 1].Lit? && b[0].Lit?)
    ensures WellFormed(a + b)
  {
  }

  /** Scanning always yields a well-formed piece list. */
  lemma {:induction false} ScanWellFormed(s: string, from: nat)
    requires from <= |s|
    ensures WellFormed(ScanFrom(s, from))
    decreases |s| - from
  {
    FindFromLeftmost(s, from);
    match FindFrom(s, from)
    case None =>
      PlainSlice(s, from, |s|);
    case Some(m) =>
      ScanFromFound(s, from, m);
      MatchAtSound(s, m.start);
      HoleOfPlaceholder(s, m);
      ScanWellFormed(s, m.end);
      var before := Before(s, from, m.start);
      PlainSlice(s, from, m.start);
      WellFormedAppend(before, [HoleOf(s, m)]);
      WellFormedAppend(before + [HoleOf(s, m)], ScanFrom(s, m.end));
  }
}
