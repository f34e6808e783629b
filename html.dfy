/**
  The one transformation the handler applies to the visitor's message before
  placing it in the HTML body of the mail: every line feed becomes `<br>`
  (`message.replace(/\n/g, '<br>')`). Nothing else is escaped.
 */
module Html {

  const BrTag := "<br>"

  function NewlineToBr(s: string): (r: string)
    ensures '\n' !in r
    ensures '\n' !in s ==> r == s
  {
    if |s| == 0 then ""
    else (if s[0] == '\n' then BrTag else [s[0]]) + NewlineToBr(s[1..])
  }

  /** Each line feed grows the fragment by three characters. */
  lemma {:induction false} NewlineToBrLength(s: string)
    ensures |NewlineToBr(s)| == |s| + 3 * multiset(s)['\n']
    decreases |s|
  {
    if |s| > 0 {
      NewlineToBrLength(s[1..]);
      assert s == [s[0]] + s[1..];
    }
  }

  lemma NoBrTagTail(s: string)
    requires |s| > 0 && !HasBrTag(s)
    ensures !HasBrTag(s[1..])
  {
    forall i | BrAt(s[1..], i) ensures BrAt(s, i + 1) { }
  }

  /** A `<br>` tag starts at index `i` of `s`. */
  predicate BrAt(s: string, i: int) {
    0 <= i && i + 4 <= |s| && s[i] == '<' && s[i + 1] == 'b' && s[i + 2] == 'r' && s[i + 3] == '>'
  }

  ghost predicate HasBrTag(s: string) {
    exists i :: BrAt(s, i)
  }

  /** The reverse reading of the HTML fragment: every `<br>`, scanned left to
      right, becomes a line feed. It has no counterpart in the handler; it
      serves as the inverse against which `NewlineToBr` is checked. */
  function BrToNewline(h: string): (r: string)
    ensures |r| <= |h|
    ensures !HasBrTag(h) ==> r == h
    decreases |h|
  {
    if BrAt(h, 0) then "\n" + BrToNewline(h[4..])
    else if |h| == 0 then ""
    else
      NoBrTagTailUnless(h);
      [h[0]] + BrToNewline(h[1..])
  }

  lemma NoBrTagTailUnless(h: string)
    requires |h| > 0
    ensures !HasBrTag(h) ==> !HasBrTag(h[1..])
  {
    if !HasBrTag(h) { NoBrTagTail(h); }
  }

  lemma NewlineToBrHead(s: string)
    requires |s| > 0
    ensures |NewlineToBr(s)| > 0
    ensures NewlineToBr(s)[0] == if s[0] == '\n' then '<' else s[0]
    ensures s[0] != '\n' ==> NewlineToBr(s)[1..] == NewlineToBr(s[1..])
  {
  }

  /** A rendered fragment can only start with `br>` if the message did. */
  lemma RenderedStart(t: string)
    requires |NewlineToBr(t)| >= 3
    requires NewlineToBr(t)[0] == 'b' && NewlineToBr(t)[1] == 'r' && NewlineToBr(t)[2] == '>'
    ensures |t| >= 3 && t[0] == 'b' && t[1] == 'r' && t[2] == '>'
  {
    NewlineToBrHead(t);
    var t1 := t[1..];
    var h1 := NewlineToBr(t1);
    assert h1 == NewlineToBr(t)[1..];
    assert |t1| > 0;
    NewlineToBrHead(t1);
    var t2 := t1[1..];
    assert NewlineToBr(t2) == h1[1..];
    assert |t2| > 0;
    NewlineToBrHead(t2);
  }

  /** A fragment starts with a `<br>` it did not render only if the message did. */
  lemma RenderedNoBr(s: string)
    requires |s| > 0 && s[0] != '\n' && !BrAt(s, 0)
    ensures !BrAt(NewlineToBr(s), 0)
  {
    var t := s[1..];
    var x := NewlineToBr(t);
    assert NewlineToBr(s) == [s[0]] + x;
    if s[0] == '<' && |x| >= 3 && x[0] == 'b' && x[1] == 'r' && x[2] == '>' {
      RenderedStart(t);
    }
  }

  lemma BrToNewlineTag(x: string)
    ensures BrToNewline(BrTag + x) == "\n" + BrToNewline(x)
  {
    var h := BrTag + x;
    assert BrAt(h, 0) && h[4..] == x;
  }

  lemma BrToNewlineCons(c: char, x: string)
    requires !BrAt([c] + x, 0)
    ensures BrToNewline([c] + x) == [c] + BrToNewline(x)
  {
    var h := [c] + x;
    assert h[1..] == x;
  }

  /** Without the precondition the round trip fails: a line feed and a
      literal `<br>` in the message render the same, because the message is
      interpolated into the HTML without escaping. */
  lemma LineFeedAndTagRenderAlike()
    ensures NewlineToBr("\n") == NewlineToBr("<br>") == "<br>"
    ensures BrToNewline(NewlineToBr("<br>")) != "<br>"
  {
  }

  /** When the message holds no literal `<br>`, the HTML fragment loses
      nothing: reading its tags back as line feeds gives the message again. */
  lemma {:induction false} NewlineToBrRoundTrip(s: string)
    requires !HasBrTag(s)
    ensures BrToNewline(NewlineToBr(s)) == s
    decreases |s|
  {
    if |s| > 0 {
      var t := s[1..];
      NoBrTagTail(s);
      NewlineToBrRoundTrip(t);
      var x := NewlineToBr(t);
      if s[0] == '\n' {
        assert NewlineToBr(s) == BrTag + x;
        BrToNewlineTag(x);
      } else {
        assert NewlineToBr(s) == [s[0]] + x;
        assert !BrAt(s, 0);
        RenderedNoBr(s);
        BrToNewlineCons(s[0], x);
      }
      assert [s[0]] + t == s;
    }
  }
}
