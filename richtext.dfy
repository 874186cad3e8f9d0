/** Rich text for the story's text lines (src/richtext.cpp): replacing every occurrence of a
    word in a string, turning a text's newlines into markup before it is parsed as a DOM
    tree, and flattening that tree into styled spans. The DOM parser (`xdom::DomParser`) is
    not part of this model: `SpansFromText` takes it as a parameter. */
module RichText {
  import opened StrUtil

  // ---------------------------------------------------------------- replaceAll

  /** `w` occurs in `s` at position `p`. */
  predicate OccursAt(s: string, w: string, p: nat) {
    p + |w| <= |s| && MatchesFrom(s, w, p, 0)
  }

  /** The characters of `w` from its `m`th on are those of `s` from `p + m` on. */
  predicate MatchesFrom(s: string, w: string, p: nat, m: nat)
    requires p + |w| <= |s|
    decreases |w| - m
  {
    m >= |w| || (s[p + m] == w[m] && MatchesFrom(s, w, p, m + 1))
  }

  /** `s.find(w, start)`: the first position at or after `start` where `w` occurs, or
      nothing (`npos`). */
  function Find(s: string, w: string, start: nat): (r: Option<nat>)
    ensures r.Some? ==> start <= r.value && OccursAt(s, w, r.value)
    ensures forall p: nat | start <= p && (r.None? || p < r.value) :: !OccursAt(s, w, p)
    decreases |s| - start
  {
    if start + |w| > |s| then None
    else if OccursAt(s, w, start) then Some(start)
    else Find(s, w, start + 1)
  }

  /** Every occurrence of a non-empty `w` in `s` replaced by `repl`, from left to right, each
      search starting after the text just put in. */
  function Replaced(s: string, w: string, repl: string): string
    requires |w| > 0
  {
    ReplacedFrom(s, w, repl, 0)
  }

  /** `Replaced` on what follows position `i` of `s`. */
  function ReplacedFrom(s: string, w: string, repl: string, i: nat): string
    requires |w| > 0 && i <= |s|
    decreases |s| - i
  {
    if i + |w| > |s| then s[i..]
    else if OccursAt(s, w, i) then repl + ReplacedFrom(s, w, repl, i + |w|)
    else [s[i]] + ReplacedFrom(s, w, repl, i + 1)
  }

  /** Replacing from `i` when the first occurrence of `w` from there is at `q`: the text
      before it is kept, `repl` takes its place, and replacing goes on after it. Nothing put
      in is searched again, and occurrences do not overlap. */
  lemma {:induction false} ReplacedSkips(s: string, w: string, repl: string, i: nat, q: nat)
    requires |w| > 0 && i <= q && OccursAt(s, w, q)
    requires forall p: nat | i <= p < q :: !OccursAt(s, w, p)
    ensures ReplacedFrom(s, w, repl, i) == s[i..q] + (repl + ReplacedFrom(s, w, repl, q + |w|))
    decreases q - i
  {
    var after := repl + ReplacedFrom(s, w, repl, q + |w|);
    if i == q {
      assert s[i..q] == [];
    } else {
      assert !OccursAt(s, w, i);
      ReplacedSkips(s, w, repl, i + 1, q);
      ConsSlice(s, i, q, ReplacedFrom(s, w, repl, i + 1), after);
    }
  }

  lemma ConsSlice(s: string, i: nat, q: nat, rt: string, x: string)
    requires i < q <= |s| && rt == s[i + 1..q] + x
    ensures [s[i]] + rt == s[i..q] + x
  {
    assert [s[i]] + s[i + 1..q] == s[i..q];
    AppendAssoc3([s[i]], s[i + 1..q], x);
  }

  lemma AppendAssoc3(a: string, b: string, c: string)
    ensures a + b + c == a + (b + c)
  {
  }

  /** Replacing from `i` where `w` no longer occurs keeps the rest as it is. */
  lemma {:induction false} ReplacedNone(s: string, w: string, repl: string, i: nat)
    requires |w| > 0 && i <= |s|
    requires forall p: nat | i <= p :: !OccursAt(s, w, p)
    ensures ReplacedFrom(s, w, repl, i) == s[i..]
    decreases |s| - i
  {
    if i + |w| <= |s| {
      assert !OccursAt(s, w, i);
      ReplacedNone(s, w, repl, i + 1);
      assert [s[i]] + s[i + 1..] == s[i..];
    }
  }

  /** `replaceAll` returns a string in which `w` does not occur as it was. */
  lemma ReplacedIdentity(s: string, w: string, repl: string)
    requires |w| > 0
    requires forall p: nat :: !OccursAt(s, w, p)
    ensures Replaced(s, w, repl) == s
  {
    ReplacedNone(s, w, repl, 0);
  }

  /** `replaceAll(input, w, repl)`, replacing in place while `find` reports an occurrence
      after the last replacement. A search for an empty `w` always succeeds and the loop
      would not end, so `w` is not empty. */
  method ReplaceAll(input: string, w: string, repl: string) returns (out: string)
    requires |w| > 0
    ensures out == Replaced(input, w, repl)
  {
    out := input;
    ghost var done: nat := 0;
    var pos := Find(out, w, 0);
    while pos.Some?
      invariant done <= |out|
      invariant Replaced(input, w, repl) == out[..done] + ReplacedFrom(out, w, repl, done)
      invariant pos == Find(out, w, done)
      decreases |out| - done
    {
      var p := pos.value;
      ghost var before := out;
      out := out[..p] + repl + out[p + |w|..];
      var next := p + |repl|;
      ReplaceStep(input, w, repl, before, done, p, out);
      done := next;
      pos := Find(out, w, next);
    }
    ReplacedNone(out, w, repl, done);
    assert out[..done] + out[done..] == out;
  }

  /** One turn of the loop in `ReplaceAll`: replacing the occurrence found at `p` keeps
      the result to come the same. */
  lemma ReplaceStep(input: string, w: string, repl: string, before: string, d: nat, p: nat, out: string)
    requires |w| > 0 && d <= |before|
    requires Replaced(input, w, repl) == before[..d] + ReplacedFrom(before, w, repl, d)
    requires Find(before, w, d) == Some(p)
    requires out == before[..p] + repl + before[p + |w|..]
    ensures p + |repl| <= |out|
    ensures Replaced(input, w, repl) == out[..p + |repl|] + ReplacedFrom(out, w, repl, p + |repl|)
  {
    ReplacedSkips(before, w, repl, d, p);
    ReplacedShift(before, out, w, repl, d, p);
  }

  /** After one replacement in place at `p`: the text up to the end of `repl` is final, and
      what is left to replace is what followed the occurrence. */
  lemma ReplacedShift(before: string, out: string, w: string, repl: string, d: nat, p: nat)
    requires |w| > 0 && d <= p && p + |w| <= |before|
    requires out == before[..p] + repl + before[p + |w|..]
    ensures before[..d] + (before[d..p] + (repl + ReplacedFrom(before, w, repl, p + |w|)))
            == out[..p + |repl|] + ReplacedFrom(out, w, repl, p + |repl|)
  {
    var tail := before[p + |w|..];
    assert before == before[..p + |w|] + tail;
    PrefixIrrelevant(before[..p + |w|], tail, w, repl, 0);
    PrefixIrrelevant(before[..p] + repl, tail, w, repl, 0);
    assert out[..p + |repl|] == before[..p] + repl;
    var rest := ReplacedFrom(before, w, repl, p + |w|);
    assert before[..d] + before[d..p] == before[..p];
    AppendAssoc3(before[..d], before[d..p], repl + rest);
    AppendAssoc3(before[..p], repl, rest);
  }

  /** Replacing from a position past `x` in `x + y` does not look at `x`. */
  lemma {:induction false} PrefixIrrelevant(x: string, y: string, w: string, repl: string, k: nat)
    requires |w| > 0 && k <= |y|
    ensures ReplacedFrom(x + y, w, repl, |x| + k) == ReplacedFrom(y, w, repl, k)
    decreases |y| - k
  {
    if k + |w| <= |y| {
      OccursPastPrefix(x, y, w, k);
      if OccursAt(y, w, k) {
        PrefixIrrelevant(x, y, w, repl, k + |w|);
        PrefixHit(x, y, w, repl, k);
      } else {
        PrefixIrrelevant(x, y, w, repl, k + 1);
        PrefixMiss(x, y, w, repl, k);
      }
    } else {
      PrefixEnd(x, y, w, repl, k);
    }
  }

  lemma PrefixHit(x: string, y: string, w: string, repl: string, k: nat)
    requires |w| > 0 && OccursAt(y, w, k) && OccursAt(x + y, w, |x| + k)
    requires ReplacedFrom(x + y, w, repl, |x| + (k + |w|)) == ReplacedFrom(y, w, repl, k + |w|)
    ensures ReplacedFrom(x + y, w, repl, |x| + k) == ReplacedFrom(y, w, repl, k)
  {
    var i := |x| + k;
    assert i + |w| == |x| + (k + |w|);
    ReplacedFromHit(x + y, w, repl, i);
    ReplacedFromHit(y, w, repl, k);
  }

  lemma PrefixMiss(x: string, y: string, w: string, repl: string, k: nat)
    requires |w| > 0 && k + |w| <= |y| && !OccursAt(y, w, k) && !OccursAt(x + y, w, |x| + k)
    requires ReplacedFrom(x + y, w, repl, |x| + (k + 1)) == ReplacedFrom(y, w, repl, k + 1)
    ensures ReplacedFrom(x + y, w, repl, |x| + k) == ReplacedFrom(y, w, repl, k)
  {
    var i := |x| + k;
    assert i + 1 == |x| + (k + 1);
    ReplacedFromMiss(x + y, w, repl, i);
    ReplacedFromMiss(y, w, repl, k);
    assert (x + y)[i] == y[k];
  }

  lemma PrefixEnd(x: string, y: string, w: string, repl: string, k: nat)
    requires |w| > 0 && k <= |y| < k + |w|
    ensures ReplacedFrom(x + y, w, repl, |x| + k) == ReplacedFrom(y, w, repl, k)
  {
    var i := |x| + k;
    ReplacedFromEnd(x + y, w, repl, i);
    ReplacedFromEnd(y, w, repl, k);
    assert (x + y)[i..] == y[k..];
  }

  /** `ReplacedFrom` where `w` occurs. */
  lemma ReplacedFromHit(s: string, w: string, repl: string, i: nat)
    requires |w| > 0 && OccursAt(s, w, i)
    ensures ReplacedFrom(s, w, repl, i) == repl + ReplacedFrom(s, w, repl, i + |w|)
  {
  }

  /** `ReplacedFrom` where `w` fits but does not occur. */
  lemma ReplacedFromMiss(s: string, w: string, repl: string, i: nat)
    requires |w| > 0 && i + |w| <= |s| && !OccursAt(s, w, i)
    ensures ReplacedFrom(s, w, repl, i) == [s[i]] + ReplacedFrom(s, w, repl, i + 1)
  {
  }

  /** `ReplacedFrom` where `w` no longer fits. */
  lemma ReplacedFromEnd(s: string, w: string, repl: string, i: nat)
    requires |w| > 0 && i <= |s| < i + |w|
    ensures ReplacedFrom(s, w, repl, i) == s[i..]
  {
  }

  lemma OccursPastPrefix(x: string, y: string, w: string, k: nat)
    requires k + |w| <= |y|
    ensures OccursAt(x + y, w, |x| + k) <==> OccursAt(y, w, k)
  {
    MatchesPastPrefix(x, y, w, k, 0);
  }

  lemma {:induction false} MatchesPastPrefix(x: string, y: string, w: string, k: nat, m: nat)
    requires k + |w| <= |y|
    ensures MatchesFrom(x + y, w, |x| + k, m) <==> MatchesFrom(y, w, k, m)
    decreases |w| - m
  {
    if m < |w| {
      assert (x + y)[|x| + k + m] == y[k + m];
      MatchesPastPrefix(x, y, w, k, m + 1);
    }
  }

  // ---------------------------------------------------------------- one-character words

  /** A one-character word occurs exactly where that character stands. */
  lemma OccursChar(s: string, c: char, i: nat)
    requires i < |s|
    ensures OccursAt(s, [c], i) <==> s[i] == c
  {
    assert MatchesFrom(s, [c], i, 1);
  }

  /** Replacing a character that `repl` does not hold leaves none of it. */
  lemma {:induction false} NoCharLeft(s: string, c: char, repl: string, i: nat)
    requires i <= |s| && c !in repl
    ensures c !in ReplacedFrom(s, [c], repl, i)
    decreases |s| - i
  {
    if i + 1 > |s| {
      ReplacedFromEnd(s, [c], repl, i);
    } else if OccursAt(s, [c], i) {
      ReplacedFromHit(s, [c], repl, i);
      NoCharLeft(s, c, repl, i + 1);
    } else {
      OccursChar(s, c, i);
      ReplacedFromMiss(s, [c], repl, i);
      NoCharLeft(s, c, repl, i + 1);
    }
  }

  /** Replacing a single character works piece by piece: across `a + b` it is the
      replacement in `a` followed by the replacement in `b`. */
  lemma {:induction false} CharSplit(a: string, b: string, c: char, repl: string, i: nat)
    requires i <= |a|
    ensures ReplacedFrom(a + b, [c], repl, i) == ReplacedFrom(a, [c], repl, i) + Replaced(b, [c], repl)
    decreases |a| - i
  {
    var ab := a + b;
    if i == |a| {
      PrefixIrrelevant(a, b, [c], repl, 0);
      ReplacedFromEnd(a, [c], repl, i);
      assert ReplacedFrom(a, [c], repl, i) == [];
    } else {
      CharSplit(a, b, c, repl, i + 1);
      assert ab[i] == a[i];
      OccursChar(ab, c, i);
      OccursChar(a, c, i);
      if OccursAt(a, [c], i) {
        ReplacedFromHit(ab, [c], repl, i);
        ReplacedFromHit(a, [c], repl, i);
        AppendAssoc3(repl, ReplacedFrom(a, [c], repl, i + 1), Replaced(b, [c], repl));
      } else {
        ReplacedFromMiss(ab, [c], repl, i);
        ReplacedFromMiss(a, [c], repl, i);
        AppendAssoc3([a[i]], ReplacedFrom(a, [c], repl, i + 1), Replaced(b, [c], repl));
      }
    }
  }

  /** Replacing a character that does not occur from `i` on keeps the rest. */
  lemma {:induction false} CharAbsent(s: string, c: char, repl: string, i: nat)
    requires i <= |s| && c !in s[i..]
    ensures ReplacedFrom(s, [c], repl, i) == s[i..]
    decreases |s| - i
  {
    if i < |s| {
      assert s[i] == s[i..][0];
      assert s[i + 1..] == s[i..][1..];
      ReplacedFromMiss(s, [c], repl, i);
      CharAbsent(s, c, repl, i + 1);
      assert [s[i]] + s[i + 1..] == s[i..];
    } else {
      ReplacedFromEnd(s, [c], repl, i);
    }
  }

  // ---------------------------------------------------------------- two newlines, then one

  /** No character `c` directly follows another in `r`. */
  predicate NoPair(r: string, c: char) {
    forall m | 0 < m < |r| :: r[m - 1] != c || r[m] != c
  }

  /** Where the word cannot start, `ReplacedFrom` starts with the character found there. */
  lemma ReplacedStart(s: string, w: string, repl: string, i: nat)
    requires |w| > 0 && i < |s| && s[i] != w[0]
    ensures |ReplacedFrom(s, w, repl, i)| > 0 && ReplacedFrom(s, w, repl, i)[0] == s[i]
  {
    if i + |w| <= |s| {
      assert !OccursAt(s, w, i);
      ReplacedFromMiss(s, w, repl, i);
    } else {
      ReplacedFromEnd(s, w, repl, i);
    }
  }

  /** Replacing every pair of `c` by text without `c`, left to right, leaves no pair: each
      `c` left is alone. */
  lemma {:induction false} NoPairLeft(s: string, c: char, repl: string, i: nat)
    requires i <= |s| && c !in repl
    ensures NoPair(ReplacedFrom(s, [c, c], repl, i), c)
    decreases |s| - i
  {
    var w := [c, c];
    var r := ReplacedFrom(s, w, repl, i);
    if i + 2 > |s| {
      ReplacedFromEnd(s, w, repl, i);
    } else if OccursAt(s, w, i) {
      ReplacedFromHit(s, w, repl, i);
      NoPairLeft(s, c, repl, i + 2);
      var rest := ReplacedFrom(s, w, repl, i + 2);
      forall m | 0 < m < |r|
        ensures r[m - 1] != c || r[m] != c
      {
        if m < |repl| {
          assert r[m] == repl[m];
        } else if m == |repl| {
          assert r[m - 1] == repl[m - 1];
        } else {
          var m1 := m - |repl|;
          assert r[m - 1] == rest[m1 - 1] && r[m] == rest[m1];
        }
      }
    } else {
      ReplacedFromMiss(s, w, repl, i);
      NoPairLeft(s, c, repl, i + 1);
      var rest := ReplacedFrom(s, w, repl, i + 1);
      if s[i] == c {
        assert s[i + 1] != c by {
          if s[i + 1] == c {
            assert OccursAt(s, w, i);
          }
        }
        ReplacedStart(s, w, repl, i + 1);
      }
      forall m | 0 < m < |r|
        ensures r[m - 1] != c || r[m] != c
      {
        if m == 1 {
          assert r[0] == s[i] && r[1] == rest[0];
        } else {
          var m1 := m - 1;
          assert r[m - 1] == rest[m1 - 1] && r[m] == rest[m1];
        }
      }
    }
  }

  // ---------------------------------------------------------------- spansFromText

  /** The text `spansFromText` hands to the DOM parser: each pair of newlines becomes a
      `<br/>` tag, the whole is wrapped in a `<root>` element, and each newline left becomes
      a space. */
  function Preprocess(text: string): string {
    Replaced("<root>" + Replaced(text, "\n\n", "<br/>") + "</root>", "\n", " ")
  }

  /** The processed text holds no newline, is wrapped in `<root>` ... `</root>`, and the
      pairs of newlines were gone before single newlines became spaces. */
  lemma PreprocessShape(text: string)
    ensures '\n' !in Preprocess(text)
    ensures Preprocess(text) == "<root>" + Replaced(Replaced(text, "\n\n", "<br/>"), "\n", " ") + "</root>"
    ensures NoPair(Replaced(text, "\n\n", "<br/>"), '\n')
  {
    var inner := Replaced(text, "\n\n", "<br/>");
    NoCharLeft("<root>" + inner + "</root>", '\n', " ", 0);
    CharSplit("<root>" + inner, "</root>", '\n', " ", 0);
    CharSplit("<root>", inner, '\n', " ", 0);
    CharAbsent("<root>", '\n', " ", 0);
    CharAbsent("</root>", '\n', " ", 0);
    assert "\n\n" == ['\n', '\n'];
    NoPairLeft(text, '\n', "<br/>", 0);
  }

  // ---------------------------------------------------------------- the DOM walk

  /** An element of the parsed document: its tag name, its attributes, the pieces of text
      around its children (`cdata[i]` comes just before `children[i]`) and its child
      elements. */
  datatype DomNode = DomNode(name: string, attributes: map<string, string>,
                             cdata: seq<string>, children: seq<DomNode>)

  datatype SpanType = PLAIN | BOLD | ITALIC | HEADER | LINK | LINEBREAK

  /** A run of text drawn in one style; `href` is set on links only. */
  datatype TextSpan = TextSpan(spanType: SpanType, content: string, href: string)

  /** The tags that become one styled span; the walk goes into any other tag. */
  predicate IsKnownTag(name: string) {
    name == "b" || name == "i" || name == "h1" || name == "a" || name == "br"
  }

  /** What a child element contributes, or `None` for a link without an `href`
      attribute (the attribute lookup throws there and the whole walk is abandoned). */
  function ChildSpans(child: DomNode): Option<seq<TextSpan>>
    decreases child, 3
  {
    if child.name == "b" then Some([TextSpan(BOLD, Join(child.cdata, ""), "")])
    else if child.name == "i" then Some([TextSpan(ITALIC, Join(child.cdata, ""), "")])
    else if child.name == "h1" then Some([TextSpan(HEADER, Join(child.cdata, ""), "")])
    else if child.name == "a" then
      if "href" in child.attributes
      then Some([TextSpan(LINK, Join(child.cdata, ""), child.attributes["href"])])
      else None
    else if child.name == "br" then Some([TextSpan(LINEBREAK, "", "")])
    else Spans(child)
  }

  /** The spans of a whole element. */
  function Spans(root: DomNode): Option<seq<TextSpan>>
    decreases root, 2
  {
    SpansTo(root, |root.cdata|)
  }

  /** The spans of the first `n` steps of the walk over `root`. */
  function SpansTo(root: DomNode, n: nat): Option<seq<TextSpan>>
    requires n <= |root.cdata|
    decreases root, 1, n
  {
    if n == 0 then Some([])
    else
      var before := SpansTo(root, n - 1);
      var piece := Piece(root, n - 1);
      if before.None? || piece.None? then None else Some(before.value + piece.value)
  }

  /** Step `i` of the walk: the text piece `cdata[i]` when it is not empty, then what the
      child at the same index contributes, if there is one. */
  function Piece(root: DomNode, i: nat): Option<seq<TextSpan>>
    requires i < |root.cdata|
    decreases root, 0, 0
  {
    var text := if root.cdata[i] != "" then [TextSpan(PLAIN, root.cdata[i], "")] else [];
    if i < |root.children| then
      var c := ChildSpans(root.children[i]);
      if c.None? then None else Some(text + c.value)
    else Some(text)
  }

  /** Once a step of the walk has failed, the walk has failed. */
  lemma {:induction false} NoneStays(root: DomNode, m: nat, n: nat)
    requires m <= n <= |root.cdata| && SpansTo(root, m).None?
    ensures SpansTo(root, n).None?
    decreases n - m
  {
    if m < n {
      NoneStays(root, m + 1, n);
    }
  }

  /** The list of spans that `visit` appends to. */
  class SpanList {
    var spans: seq<TextSpan>

    constructor ()
      ensures spans == []
    {
      spans := [];
    }

    /** Walks `root`: at each index a span for the text piece when it is not empty, then
        what the child at that index contributes. It fails exactly when `Spans(root)` is
        `None`, and on success it has appended exactly `Spans(root)`. */
    method Visit(root: DomNode) returns (ok: bool)
      modifies this
      ensures ok <==> Spans(root).Some?
      ensures ok ==> spans == old(spans) + Spans(root).value
      decreases root, 1
    {
      var i := 0;
      while i < |root.cdata|
        invariant 0 <= i <= |root.cdata|
        invariant SpansTo(root, i).Some?
        invariant spans == old(spans) + SpansTo(root, i).value
      {
        var text := root.cdata[i];
        ghost var start := spans;
        var piece: seq<TextSpan> := [];
        if text != "" {
          piece := [TextSpan(PLAIN, text, "")];
          spans := spans + piece;
        }
        if i < |root.children| {
          ghost var mid := spans;
          var childOk := VisitChild(root.children[i]);
          if !childOk {
            PieceStep(root, i);
            NoneStays(root, i + 1, |root.cdata|);
            return false;
          }
          SpansAppend(start, piece, ChildSpans(root.children[i]).value);
          piece := piece + ChildSpans(root.children[i]).value;
        }
        PieceStep(root, i);
        assert spans == start + piece;
        SpansAppend(old(spans), SpansTo(root, i).value, piece);
        i := i + 1;
      }
      return true;
    }

    /** The branch of `visit` for one child: a single span for a known tag (an exception
        for a link without `href`), a walk into any other tag. */
    method VisitChild(child: DomNode) returns (ok: bool)
      modifies this
      ensures ok <==> ChildSpans(child).Some?
      ensures ok ==> spans == old(spans) + ChildSpans(child).value
      decreases child, 2
    {
      if child.name == "b" {
        spans := spans + [TextSpan(BOLD, Join(child.cdata, ""), "")];
      } else if child.name == "i" {
        spans := spans + [TextSpan(ITALIC, Join(child.cdata, ""), "")];
      } else if child.name == "h1" {
        spans := spans + [TextSpan(HEADER, Join(child.cdata, ""), "")];
      } else if child.name == "a" {
        if "href" !in child.attributes {
          return false;
        }
        spans := spans + [TextSpan(LINK, Join(child.cdata, ""), child.attributes["href"])];
      } else if child.name == "br" {
        spans := spans + [TextSpan(LINEBREAK, "", "")];
      } else {
        ok := Visit(child);
        return;
      }
      return true;
    }
  }

  /** One step of `SpansTo`, in terms of the text piece and the child's spans. */
  lemma PieceStep(root: DomNode, i: nat)
    requires i < |root.cdata| && SpansTo(root, i).Some?
    ensures var text := if root.cdata[i] != "" then [TextSpan(PLAIN, root.cdata[i], "")] else [];
      if i < |root.children| && ChildSpans(root.children[i]).None? then SpansTo(root, i + 1).None?
      else
        && Piece(root, i).Some?
        && Piece(root, i).value == text + (if i < |root.children| then ChildSpans(root.children[i]).value else [])
        && SpansTo(root, i + 1) == Some(SpansTo(root, i).value + Piece(root, i).value)
  {
  }

  lemma SpansAppend(a: seq<TextSpan>, b: seq<TextSpan>, c: seq<TextSpan>)
    ensures a + b + c == a + (b + c)
  {
  }

  // ---------------------------------------------------------------- what the walk yields

  /** A plain span holds text, a line break holds none, and only links carry an `href`. */
  predicate WellShaped(sp: TextSpan) {
    && (sp.spanType == PLAIN ==> sp.content != "")
    && (sp.spanType == LINEBREAK ==> sp.content == "")
    && (sp.spanType != LINK ==> sp.href == "")
  }

  predicate AllWellShaped(ss: seq<TextSpan>) {
    forall k | 0 <= k < |ss| :: WellShaped(ss[k])
  }

  lemma {:induction false} SpansWellShaped(root: DomNode)
    ensures Spans(root).Some? ==> AllWellShaped(Spans(root).value)
    decreases root, 2
  {
    SpansToWellShaped(root, |root.cdata|);
  }

  lemma {:induction false} SpansToWellShaped(root: DomNode, n: nat)
    requires n <= |root.cdata|
    ensures SpansTo(root, n).Some? ==> AllWellShaped(SpansTo(root, n).value)
    decreases root, 1, n
  {
    if n > 0 {
      SpansToWellShaped(root, n - 1);
      var i := n - 1;
      if i < |root.children| {
        ChildWellShaped(root.children[i]);
      }
    }
  }

  lemma {:induction false} ChildWellShaped(child: DomNode)
    ensures ChildSpans(child).Some? ==> AllWellShaped(ChildSpans(child).value)
    decreases child, 3
  {
    if !IsKnownTag(child.name) {
      SpansWellShaped(child);
    }
  }

  /** Some child that the walk reaches is a link without `href`, or an unknown tag with
      such a link inside. */
  predicate MissingHref(root: DomNode)
    decreases root, 1
  {
    exists i | 0 <= i < |root.cdata| && i < |root.children| :: BadChild(root.children[i])
  }

  predicate BadChild(child: DomNode)
    decreases child, 2
  {
    if child.name == "a" then "href" !in child.attributes
    else !IsKnownTag(child.name) && MissingHref(child)
  }

  /** The walk fails exactly when it reaches a link without `href`. */
  lemma {:induction false} FailsIffMissingHref(root: DomNode)
    ensures Spans(root).None? <==> MissingHref(root)
    decreases root, 2
  {
    FailsBefore(root, |root.cdata|);
  }

  lemma {:induction false} FailsBefore(root: DomNode, n: nat)
    requires n <= |root.cdata|
    ensures SpansTo(root, n).None? <==>
      exists i | 0 <= i < n && i < |root.children| :: BadChild(root.children[i])
    decreases root, 1, n
  {
    if n > 0 {
      FailsBefore(root, n - 1);
      var i := n - 1;
      if i < |root.children| {
        ChildFails(root.children[i]);
      }
    }
  }

  lemma {:induction false} ChildFails(child: DomNode)
    ensures ChildSpans(child).None? <==> BadChild(child)
    decreases child, 3
  {
    if !IsKnownTag(child.name) {
      FailsIffMissingHref(child);
    }
  }

  /** Only the children that have a text piece at their index are walked: the rest are
      dropped without effect. */
  lemma ExtraChildrenIgnored(root: DomNode)
    requires |root.children| > |root.cdata|
    ensures Spans(root) == Spans(root.(children := root.children[..|root.cdata|]))
  {
    var cut := root.(children := root.children[..|root.cdata|]);
    SameSpansTo(root, cut, |root.cdata|);
  }

  lemma {:induction false} SameSpansTo(root: DomNode, cut: DomNode, n: nat)
    requires cut.cdata == root.cdata && n <= |root.cdata|
    requires |cut.children| == |root.cdata| <= |root.children|
    requires cut.children == root.children[..|root.cdata|]
    ensures SpansTo(root, n) == SpansTo(cut, n)
    decreases n
  {
    if n > 0 {
      SameSpansTo(root, cut, n - 1);
      assert cut.children[n - 1] == root.children[n - 1];
    }
  }

  /** A known tag other than a link without `href` gives exactly one span, whose text is
      the tag's own text pieces joined (none for a line break); its child elements are not
      walked. */
  lemma KnownTagSpan(child: DomNode)
    requires IsKnownTag(child.name) && (child.name == "a" ==> "href" in child.attributes)
    ensures ChildSpans(child).Some? && |ChildSpans(child).value| == 1
    ensures ChildSpans(child).value[0].content == if child.name == "br" then "" else Join(child.cdata, "")
    ensures ChildSpans(child) == ChildSpans(child.(children := []))
  {
  }

  /** The spans of a story text: the text is preprocessed, handed to the DOM parser
      `parse`, and the resulting tree is walked. `None` stands for the walk being
      abandoned at a link without `href`. */
  method SpansFromText(text: string, parse: string -> DomNode) returns (spans: Option<seq<TextSpan>>)
    ensures spans == Spans(parse(Preprocess(text)))
  {
    var broken := ReplaceAll(text, "\n\n", "<br/>");
    var processed := "<root>" + broken + "</root>";
    processed := ReplaceAll(processed, "\n", " ");
    assert processed == Preprocess(text);
    var root := parse(processed);
    var list := new SpanList();
    var ok := list.Visit(root);
    if ok {
      assert list.spans == Spans(root).value;
      spans := Some(list.spans);
    } else {
      spans := None;
    }
  }
}
