/**
 * `highlight_code_blocks`: every non-overlapping, left-most, shortest
 * ```` ```…``` ```` pair in a reply is replaced by the highlighted code it
 * encloses, and the text around the pairs is kept as it is.  The search is
 * Python's `re.sub` with the DOTALL pattern ```` ```(.*?)``` ````, written out
 * as a scan; Pygments (lexer lookup, lexer guessing and highlighting) is a
 * parameter of the model.
 */
module CodeFence {
  import opened Wrappers
  import opened PyStr

  /** Three backticks start at index `i` of `t`. */
  predicate FenceAt(t: string, i: int) {
    0 <= i && i + 3 <= |t| && t[i] == '`' && t[i + 1] == '`' && t[i + 2] == '`'
  }

  ghost predicate NoFence(t: string) {
    forall i :: !FenceAt(t, i)
  }

  /** No two fences in `t` that could open and close a block (the second starting at least three characters after the first). */
  ghost predicate NoPair(t: string) {
    forall a, b :: FenceAt(t, a) && FenceAt(t, b) ==> b < a + 3
  }

  /** The first fence at or after `from`: where the pattern can next match, and where a lazy `.*?` stops. */
  function FindFence(t: string, from: nat): (r: Option<nat>)
    requires from <= |t|
    ensures r.Some? ==> from <= r.value && FenceAt(t, r.value)
    ensures r.Some? ==> forall k :: from <= k < r.value ==> !FenceAt(t, k)
    ensures r.None? ==> forall k :: from <= k ==> !FenceAt(t, k)
    decreases |t| - from
  {
    if from + 3 > |t| then None
    else if FenceAt(t, from) then Some(from)
    else FindFence(t, from + 1)
  }

  /** A match of the pattern: the indices of its opening and its closing fence. */
  datatype Pair = Pair(open: nat, close: nat)

  /**
   * The next match of the pattern at or after `from`: the first fence `i`, and
   * the first fence `j` at least three characters after it.  When the first
   * fence has no partner, no later one has either, so there is no match.
   */
  function NextPair(t: string, from: nat): (r: Option<Pair>)
    requires from <= |t|
    ensures r.Some? ==> from <= r.value.open && r.value.open + 3 <= r.value.close
    ensures r.Some? ==> FenceAt(t, r.value.open) && FenceAt(t, r.value.close)
    ensures r.Some? ==> forall k :: from <= k < r.value.open ==> !FenceAt(t, k)
    ensures r.Some? ==> forall k :: r.value.open + 3 <= k < r.value.close ==> !FenceAt(t, k)
    ensures r.None? ==> forall a, b :: from <= a && a + 3 <= b && FenceAt(t, a) ==> !FenceAt(t, b)
  {
    match FindFence(t, from)
    case None => None
    case Some(i) =>
      match FindFence(t, i + 3)
      case None => None
      case Some(j) => Some(Pair(i, j))
  }

  /** A piece of a reply: text outside any pair, or the text between a matched pair of fences (the pattern's group 1). */
  datatype Segment = Prose(text: string) | Block(code: string)

  /** The unmatched text before a match, when there is any. */
  function Lead(p: string): (segs: seq<Segment>)
    ensures |segs| <= 1
  {
    if p == [] then [] else [Prose(p)]
  }

  /** What `re.sub` sees in `t`: each match and the unmatched text between matches. */
  function Scan(t: string): (segs: seq<Segment>)
    ensures segs == [] <==> t == []
    decreases |t|
  {
    match NextPair(t, 0)
    case None => Lead(t)
    case Some(Pair(i, j)) =>
      var k := j + 3;
      Lead(t[..i]) + [Block(t[i + 3..j])] + Scan(t[k..])
  }

  /** The text a segment was cut from: prose as it is, a block inside its fences. */
  function Source(x: Segment): string {
    match x
    case Prose(p) => p
    case Block(c) => "```" + c + "```"
  }

  /** Puts the fences back around each block. */
  function Unscan(segs: seq<Segment>): string {
    if segs == [] then [] else Source(segs[0]) + Unscan(segs[1..])
  }

  /**
   * The segmentation a left-most, lazy match produces: no prose is empty;
   * prose before a block holds no fence, not even one that runs into the
   * block's opening fence; a body holds no fence, not even one that runs into
   * its closing fence; prose that ends the text holds no complete pair.
   */
  ghost predicate Canonical(segs: seq<Segment>) {
    if segs == [] then true
    else match segs[0]
      case Block(c) => NoFence(c + "``") && Canonical(segs[1..])
      case Prose(p) =>
        p != [] &&
        if |segs| == 1 then NoPair(p)
        else segs[1].Block? && NoFence(p + "``") && Canonical(segs[1..])
  }

  lemma {:induction false} UnscanAppend(a: seq<Segment>, b: seq<Segment>)
    ensures Unscan(a + b) == Unscan(a) + Unscan(b)
    decreases |a|
  {
    if a == [] {
      assert a + b == b;
    } else {
      assert (a + b)[0] == a[0];
      assert (a + b)[1..] == a[1..] + b;
      UnscanAppend(a[1..], b);
    }
  }

  /** A fence in a prefix `u` of `t[from..]` is a fence in `t`. */
  lemma {:induction false} FenceInPrefix(t: string, from: nat, u: string, x: int)
    requires from + |u| <= |t| && t[from..from + |u|] == u
    requires 0 <= x && x + 3 <= |u|
    ensures FenceAt(u, x) <==> FenceAt(t, from + x)
  {
  }

  /** A match spelled out: the prose before it, the fenced body and what follows. */
  lemma {:induction false} PairText(t: string, i: nat, j: nat)
    requires i + 3 <= j && j + 3 <= |t| && FenceAt(t, i) && FenceAt(t, j)
    ensures t == t[..i] + ("```" + t[i + 3..j] + "```") + t[j + 3..]
  {
  }

  /** Unscanning the prose before a match and its block. */
  lemma {:induction false} UnscanMatched(p: string, c: string)
    ensures Unscan(Lead(p) + [Block(c)]) == p + ("```" + c + "```")
  {
    var b := [Block(c)];
    assert b[1..] == [];
    UnscanAppend(Lead(p), b);
    if p != [] {
      assert Lead(p)[1..] == [];
    }
  }

  /** Text outside the matched pairs, and inside them, is kept verbatim: the scan loses nothing. */
  lemma {:induction false} ScanRestoresText(t: string)
    ensures Unscan(Scan(t)) == t
    decreases |t|
  {
    match NextPair(t, 0)
    case None =>
      if t != [] {
        assert Lead(t)[1..] == [];
      }
    case Some(Pair(i, j)) =>
      var k := j + 3;
      var head := Lead(t[..i]) + [Block(t[i + 3..j])];
      var rest := t[k..];
      assert Scan(t) == head + Scan(rest);
      ScanRestoresText(rest);
      UnscanAppend(head, Scan(rest));
      UnscanMatched(t[..i], t[i + 3..j]);
      PairText(t, i, j);
  }

  /** Stretching a fence-free slice by two characters, while the slice stops short of the next fence, stays fence-free. */
  lemma {:induction false} NoFenceBefore(t: string, lo: nat, hi: nat)
    requires lo <= hi && hi + 3 <= |t| && FenceAt(t, hi)
    requires forall k :: lo <= k < hi ==> !FenceAt(t, k)
    ensures NoFence(t[lo..hi] + "``")
  {
    var u := t[lo..hi] + "``";
    assert u == t[lo..hi + 2];
    forall x | FenceAt(u, x) ensures false {
      FenceInPrefix(t, lo, u, x);
    }
  }

  /** The first match leaves no fence in the prose before it or in its body, counting fences that run into its own. */
  lemma {:induction false} MatchIsLazy(t: string, i: nat, j: nat)
    requires NextPair(t, 0) == Some(Pair(i, j))
    ensures j + 3 <= |t|
    ensures t[..i] != [] ==> NoFence(t[..i] + "``")
    ensures NoFence(t[i + 3..j] + "``")
  {
    NoFenceBefore(t, i + 3, j);
    if 0 < i {
      NoFenceBefore(t, 0, i);
      assert t[..i] == t[0..i];
    }
  }

  /** Canonical shape survives putting one block, and the prose before it, in front. */
  lemma {:induction false} CanonicalCons(p: string, c: string, rest: seq<Segment>, all: seq<Segment>)
    requires p != [] ==> NoFence(p + "``")
    requires NoFence(c + "``")
    requires Canonical(rest)
    requires all == Lead(p) + [Block(c)] + rest
    ensures Canonical(all)
  {
  }

  /** The scan has the shape of a left-most, lazy match. */
  lemma {:induction false} ScanIsCanonical(t: string)
    ensures Canonical(Scan(t))
    decreases |t|
  {
    match NextPair(t, 0)
    case None =>
      if t != [] {
        assert Lead(t) == [Prose(t)];
      }
    case Some(Pair(i, j)) =>
      var k := j + 3;
      var rest := t[k..];
      assert Scan(t) == Lead(t[..i]) + [Block(t[i + 3..j])] + Scan(rest);
      ScanIsCanonical(rest);
      MatchIsLazy(t, i, j);
      CanonicalCons(t[..i], t[i + 3..j], Scan(rest), Scan(t));
  }

  /** A string with no fence running into the fence that follows it: the left-most match starts there, and, for a body, closes there. */
  lemma {:induction false} FenceFreeUntil(t: string, from: nat, u: string)
    requires from + |u| + 3 <= |t| && t[from..from + |u| + 3] == u + "```"
    requires NoFence(u + "``")
    ensures FenceAt(t, from + |u|)
    ensures forall k :: from <= k < from + |u| ==> !FenceAt(t, k)
  {
    var v := u + "``";
    assert t[from..from + |v|] == v by {
      assert t[from..from + |v|] == t[from..from + |u| + 3][..|v|];
    }
    assert t[from + |u|..from + |u| + 3] == "```" by {
      assert t[from + |u|..from + |u| + 3] == t[from..from + |u| + 3][|u|..];
    }
    forall k | from <= k < from + |u| ensures !FenceAt(t, k) {
      FenceInPrefix(t, from, v, k - from);
    }
  }

  /** Where the pieces of a fenced match sit in its text. */
  lemma {:induction false} MatchSlices(p: string, c: string, r: string)
    ensures var t := p + ("```" + c + "```") + r;
      var i, j := |p|, |p| + 3 + |c|;
      && j + 3 <= |t|
      && t[0..i + 3] == p + "```" && t[i + 3..j + 3] == c + "```"
      && t[..i] == p && t[i + 3..j] == c && t[j + 3..] == r
  {
  }

  /** Text that starts with a canonical match: the pattern's next match is that one. */
  lemma {:induction false} NextPairOfMatch(p: string, c: string, r: string)
    requires NoFence(p + "``") && NoFence(c + "``")
    ensures NextPair(p + ("```" + c + "```") + r, 0) == Some(Pair(|p|, |p| + 3 + |c|))
  {
    var t := p + ("```" + c + "```") + r;
    var i, j := |p|, |p| + 3 + |c|;
    MatchSlices(p, c, r);
    FenceFreeUntil(t, 0, p);
    FenceFreeUntil(t, i + 3, c);
    assert FindFence(t, 0) == Some(i);
    assert FindFence(t, i + 3) == Some(j);
  }

  /** Text that starts with a canonical match scans to that match and the scan of what follows. */
  lemma {:induction false} ScanOfMatch(p: string, c: string, r: string)
    requires NoFence(p + "``") && NoFence(c + "``")
    ensures Scan(p + ("```" + c + "```") + r) == Lead(p) + [Block(c)] + Scan(r)
  {
    NextPairOfMatch(p, c, r);
    MatchSlices(p, c, r);
  }

  /** Text with no complete pair of fences is a single piece of prose (or nothing). */
  lemma {:induction false} ScanWithoutPair(t: string)
    requires NoPair(t)
    ensures Scan(t) == Lead(t)
  {
  }

  /** Every canonical segmentation is the scan of its own text: no other segmentation reads back as canonical. */
  lemma {:induction false} ScanOfCanonical(segs: seq<Segment>)
    requires Canonical(segs)
    ensures Scan(Unscan(segs)) == segs
    decreases |segs|
  {
    if segs == [] {
      ScanWithoutPair([]);
    } else if segs[0].Prose? && |segs| == 1 {
      var p := segs[0].text;
      assert segs[1..] == [];
      assert Unscan(segs) == p;
      ScanWithoutPair(p);
      assert segs == [Prose(p)];
    } else {
      var p := if segs[0].Prose? then segs[0].text else [];
      var tail := if segs[0].Prose? then segs[2..] else segs[1..];
      var c := if segs[0].Prose? then segs[1].code else segs[0].code;
      assert segs == Lead(p) + [Block(c)] + tail by {
        if segs[0].Prose? {
          assert segs == [segs[0], segs[1]] + segs[2..];
        } else {
          assert segs == [segs[0]] + segs[1..];
        }
      }
      assert Canonical(tail) by {
        if segs[0].Prose? {
          assert segs[1..][1..] == tail;
        }
      }
      assert NoFence(p + "``") by {
        if p == [] {
          assert forall x :: !FenceAt("``", x);
        }
      }
      ScanOfCanonical(tail);
      UnscanAppend(Lead(p) + [Block(c)], tail);
      UnscanMatched(p, c);
      ScanOfMatch(p, c, Unscan(tail));
    }
  }

  /** The scan is the one canonical segmentation that reads back as the text. */
  lemma ScanCharacterized(t: string, segs: seq<Segment>)
    ensures Scan(t) == segs <==> Canonical(segs) && Unscan(segs) == t
  {
    if Scan(t) == segs {
      ScanIsCanonical(t);
      ScanRestoresText(t);
    }
    if Canonical(segs) && Unscan(segs) == t {
      ScanOfCanonical(segs);
    }
  }

  /** Index of the first `c` in `s`, as `s.split(c, 1)` finds it. */
  function IndexOf(s: string, c: char): (r: Option<nat>)
    ensures r.Some? ==> r.value < |s| && s[r.value] == c && c !in s[..r.value]
    ensures r.None? ==> c !in s
  {
    if s == [] then None
    else if s[0] == c then Some(0)
    else
      match IndexOf(s[1..], c)
      case None => None
      case Some(n) =>
        assert s[..n + 1] == [s[0]] + s[1..][..n];
        Some(n + 1)
  }

  /** A block's body after `strip()`, with the language named on its first line taken off when there is one. */
  datatype Header = Header(language: Option<string>, code: string)

  /**
   * A stripped body: when it has more than one line and the first line is
   * alphanumeric, that line names the language and the rest is the code;
   * otherwise the whole of it is the code.
   */
  function SplitFirstLine(code: string): (h: Header)
    ensures h.language.Some? ==> IsAlnum(h.language.value) && code == h.language.value + "\n" + h.code
    ensures h.language.None? ==> h.code == code
    ensures h.language.None? ==> forall n :: 0 <= n < |code| && code[n] == '\n' ==> !IsAlnum(code[..n])
  {
    match IndexOf(code, '\n')
    case None => Header(None, code)
    case Some(n) =>
      if IsAlnum(code[..n]) then
        assert code == code[..n] + "\n" + code[n + 1..];
        Header(Some(code[..n]), code[n + 1..])
      else
        OnlyFirstLineNames(code, n);
        Header(None, code)
  }

  /** The header of a block's body, read after `strip()`. */
  function SplitHeader(body: string): (h: Header)
    ensures h.language.Some? ==> IsAlnum(h.language.value) && Strip(body) == h.language.value + "\n" + h.code
    ensures h.language.None? ==> h.code == Strip(body)
  {
    SplitFirstLine(Strip(body))
  }

  /** An alphanumeric first line is the only alphanumeric line that ends at a newline. */
  lemma {:induction false} FirstLineUnique(code: string, lang: string, rest: string)
    requires IsAlnum(lang) && code == lang + "\n" + rest
    ensures |lang| < |code| && code[|lang|] == '\n'
    ensures code[..|lang|] == lang && code[|lang| + 1..] == rest
    ensures forall n :: 0 <= n < |code| && code[n] == '\n' && IsAlnum(code[..n]) ==> n == |lang|
  {
  }

  /** An alphanumeric string has no newline, so only the first line can name a language. */
  lemma {:induction false} OnlyFirstLineNames(code: string, n: nat)
    requires n < |code| && code[n] == '\n' && '\n' !in code[..n]
    requires !IsAlnum(code[..n])
    ensures forall m :: 0 <= m < |code| && code[m] == '\n' ==> !IsAlnum(code[..m])
  {
  }

  /** How Pygments is asked for a lexer: by the language's name, or by guessing from the code. */
  datatype Lexer = ByName(name: string) | Guessed

  /** `get_lexer_by_name(language)` when a language was named, `guess_lexer(code)` otherwise. */
  function ChooseLexer(h: Header): (l: Lexer)
    ensures l.ByName? <==> h.language.Some?
    ensures l.ByName? ==> l.name == h.language.value
  {
    match h.language
    case Some(name) => ByName(name)
    case None => Guessed
  }

  /** Pygments' `highlight(code, lexer, TerminalFormatter())`, given the code and how its lexer was chosen. */
  type Highlighter = (string, Lexer) -> string

  /**
   * `replace_with_highlighted`: what one block is replaced with.  When a line
   * of the stripped body ending at a newline is alphanumeric, the code after
   * it is highlighted by the lexer it names; when there is none, the whole
   * stripped body is highlighted by a guessed lexer.
   */
  function Highlighted(body: string, hl: Highlighter): (r: string)
    ensures forall n :: 0 <= n < |Strip(body)| && Strip(body)[n] == '\n' && IsAlnum(Strip(body)[..n]) ==>
      r == hl(Strip(body)[n + 1..], ByName(Strip(body)[..n]))
    ensures (forall n :: 0 <= n < |Strip(body)| && Strip(body)[n] == '\n' ==> !IsAlnum(Strip(body)[..n])) ==>
      r == hl(Strip(body), Guessed)
  {
    var h := SplitHeader(body);
    if h.language.Some? then
      FirstLineUnique(Strip(body), h.language.value, h.code);
      hl(h.code, ChooseLexer(h))
    else
      hl(h.code, ChooseLexer(h))
  }

  /** The reply with each block replaced by its highlighted code, and prose kept as it is. */
  function Render(segs: seq<Segment>, hl: Highlighter): (r: string)
    ensures (forall k :: 0 <= k < |segs| ==> segs[k].Prose?) ==> r == Unscan(segs)
  {
    if segs == [] then []
    else
      (match segs[0]
       case Prose(p) => p
       case Block(c) => Highlighted(c, hl)) + Render(segs[1..], hl)
  }

  /** `highlight_code_blocks(text)`: a reply with no complete pair of fences comes back unchanged. */
  function HighlightCodeBlocks(text: string, hl: Highlighter): (r: string)
    ensures NoPair(text) ==> r == text
  {
    Render(Scan(text), hl)
  }

  lemma {:induction false} RenderAppend(a: seq<Segment>, b: seq<Segment>, hl: Highlighter)
    ensures Render(a + b, hl) == Render(a, hl) + Render(b, hl)
    decreases |a|
  {
    if a == [] {
      assert a + b == b;
    } else {
      assert (a + b)[0] == a[0];
      assert (a + b)[1..] == a[1..] + b;
      RenderAppend(a[1..], b, hl);
    }
  }

  /** Rendering the prose before a match and its block. */
  lemma {:induction false} RenderMatched(p: string, body: string, hl: Highlighter)
    ensures Render(Lead(p) + [Block(body)], hl) == p + Highlighted(body, hl)
  {
    var b := [Block(body)];
    assert b[1..] == [];
    assert Render(b, hl) == Highlighted(body, hl) + Render([], hl);
    RenderAppend(Lead(p), b, hl);
    if p != [] {
      assert Lead(p)[1..] == [];
      assert Render(Lead(p), hl) == p + Render([], hl);
    }
  }

  /**
   * The first block is replaced by its highlighted body, the prose before it
   * is kept, and the search resumes right after its closing fence.
   */
  lemma {:induction false} FirstBlockHighlighted(p: string, body: string, r: string, hl: Highlighter)
    requires NoFence(p + "``") && NoFence(body + "``")
    ensures HighlightCodeBlocks(p + ("```" + body + "```") + r, hl)
         == p + Highlighted(body, hl) + HighlightCodeBlocks(r, hl)
  {
    var head := Lead(p) + [Block(body)];
    ScanOfMatch(p, body, r);
    RenderAppend(head, Scan(r), hl);
    RenderMatched(p, body, hl);
  }

  /** With no fence in `p` running into the fence after it, and none in `u`, every fence of `p + "```" + u` overlaps that one. */
  lemma {:induction false} FencesNearOpening(p: string, u: string, x: int)
    requires NoFence(p + "``") && NoFence(u)
    requires FenceAt(p + "```" + u, x)
    ensures |p| <= x <= |p| + 2
  {
    var t := p + "```" + u;
    if x < |p| {
      assert t[0..|p| + 2] == p + "``";
      FenceInPrefix(t, 0, p + "``", x);
    } else if x > |p| + 2 {
      assert t[|p| + 3..|t|] == u;
      FenceInPrefix(t, |p| + 3, u, x - (|p| + 3));
    }
  }

  /** An opening fence with no closing one is left in the text as it is, whatever surrounds it. */
  lemma {:induction false} UnpairedFenceKept(p: string, u: string, hl: Highlighter)
    requires NoFence(p + "``") && NoFence(u)
    ensures HighlightCodeBlocks(p + "```" + u, hl) == p + "```" + u
  {
    var t := p + "```" + u;
    forall a, b | FenceAt(t, a) && FenceAt(t, b) ensures b < a + 3 {
      FencesNearOpening(p, u, a);
      FencesNearOpening(p, u, b);
    }
  }
}
