/**
  The address check of the contact form: the regular expression
  `^[^\s@]+@[^\s@]+\.[^\s@]+$` written as a hand-made deterministic
  automaton (`IsValidEmail`), together with two independent readings of what
  it accepts (`EmailPattern`, the expression read as a language, and
  `HasEmailShape`, the same set described character by character) and the
  proofs that all three agree.
 */
module EmailFormat {

  /** The characters matched by `\s` in a JavaScript regular expression:
      ECMAScript's WhiteSpace and LineTerminator code points. */
  predicate IsWhitespace(c: char) {
    c == '\t' || c == '\n' || c == '\U{000B}' || c == '\U{000C}' || c == '\r'
    || c == ' ' || c == '\U{00A0}' || c == '\U{1680}'
    || ('\U{2000}' <= c <= '\U{200A}')
    || c == '\U{2028}' || c == '\U{2029}' || c == '\U{202F}' || c == '\U{205F}'
    || c == '\U{3000}' || c == '\U{FEFF}'
  }

  /** A character of the class `[^\s@]`. Note that `.` is one. */
  predicate IsPlain(c: char) {
    !IsWhitespace(c) && c != '@'
  }

  ghost predicate AllPlain(s: string) {
    forall i | 0 <= i < |s| :: IsPlain(s[i])
  }

  /** `[^\s@]+` */
  ghost predicate OneOrMorePlain(s: string) {
    |s| > 0 && AllPlain(s)
  }

  /** `[^\s@]+\.[^\s@]+` split at the `.` with index `dot`. */
  ghost predicate DotSplit(d: string, dot: int) {
    0 <= dot < |d| && d[dot] == '.' && OneOrMorePlain(d[..dot]) && OneOrMorePlain(d[dot + 1..])
  }

  /** `[^\s@]+\.[^\s@]+`, with the backtracking of the regular expression:
      any `.` may be the one that separates the two runs. */
  ghost predicate DomainPattern(d: string) {
    exists dot :: DotSplit(d, dot)
  }

  /** `[^\s@]+@[^\s@]+\.[^\s@]+` split at the `@` with index `at`. */
  ghost predicate AtSplit(s: string, at: int) {
    0 <= at < |s| && s[at] == '@' && OneOrMorePlain(s[..at]) && DomainPattern(s[at + 1..])
  }

  /** The whole anchored expression `^[^\s@]+@[^\s@]+\.[^\s@]+$`. */
  ghost predicate EmailPattern(s: string) {
    exists at :: AtSplit(s, at)
  }

  /** The accepted addresses described character by character: no whitespace,
      exactly one `@`, something before it, and after it a `.` that is
      neither the first nor the last character of the part after the `@`. */
  ghost predicate HasEmailShape(s: string) {
    && (forall i | 0 <= i < |s| :: !IsWhitespace(s[i]))
    && exists at | 0 < at < |s| ::
         && s[at] == '@'
         && (forall i | 0 <= i < |s| && i != at :: s[i] != '@')
         && exists dot | at + 1 < dot < |s| - 1 :: s[dot] == '.'
  }

  /** States of the matcher: Start (nothing read), Local (inside the part
      before `@`), AfterAt, Domain (inside the first run after `@`), Dot (just
      read a `.` that follows at least one domain character), Accept (at
      least one character after such a dot) and Reject. */
  datatype State = Start | Local | AfterAt | Domain | Dot | Accept | Reject

  function Step(q: State, c: char): State {
    match q
    case Start => if IsPlain(c) then Local else Reject
    case Local => if c == '@' then AfterAt else if IsPlain(c) then Local else Reject
    case AfterAt => if IsPlain(c) then Domain else Reject
    case Domain => if c == '.' then Dot else if IsPlain(c) then Domain else Reject
    case Dot => if IsPlain(c) then Accept else Reject
    case Accept => if IsPlain(c) then Accept else Reject
    case Reject => Reject
  }

  function Run(q: State, s: string): State
    decreases |s|
  {
    if |s| == 0 then q else Run(Step(q, s[0]), s[1..])
  }

  /** `isValidEmail(email)` (api/send-email.js): the matcher accepts exactly
      the strings the regular expression matches. */
  predicate IsValidEmail(s: string)
    ensures IsValidEmail(s) <==> EmailPattern(s)
  {
    RunDecides(Start, s);
    Run(Start, s) == Accept
  }

  /** The rest of a string whose `@` is at index `at`, once at least one
      character of the part before it has been read. */
  ghost predicate LocalSplit(s: string, at: int) {
    0 <= at < |s| && s[at] == '@' && AllPlain(s[..at]) && DomainPattern(s[at + 1..])
  }

  /** A `.` at index `dot` with at least one character after it. */
  ghost predicate DotAhead(s: string, dot: int) {
    0 <= dot < |s| - 1 && s[dot] == '.'
  }

  /** The suffixes that lead from state `q` to acceptance. */
  ghost predicate Accepts(q: State, s: string) {
    match q
    case Start => EmailPattern(s)
    case Local => exists at :: LocalSplit(s, at)
    case AfterAt => DomainPattern(s)
    case Domain => AllPlain(s) && exists dot :: DotAhead(s, dot)
    case Dot => OneOrMorePlain(s)
    case Accept => AllPlain(s)
    case Reject => false
  }

  lemma AllPlainCons(s: string)
    requires |s| > 0
    ensures AllPlain(s) <==> IsPlain(s[0]) && AllPlain(s[1..])
  {
    var t := s[1..];
    if IsPlain(s[0]) && AllPlain(t) {
      forall i | 0 <= i < |s| ensures IsPlain(s[i]) {
        if i > 0 { assert s[i] == t[i - 1]; }
      }
    }
    if AllPlain(s) {
      forall i | 0 <= i < |t| ensures IsPlain(t[i]) {
        assert t[i] == s[i + 1];
      }
    }
  }

  lemma AllPlainSlice(s: string, i: int, j: int)
    requires AllPlain(s) && 0 <= i <= j <= |s|
    ensures AllPlain(s[i..j])
  {
    var u := s[i..j];
    forall k | 0 <= k < |u| ensures IsPlain(u[k]) {
      assert u[k] == s[i + k];
    }
  }

  lemma StartStep(s: string)
    requires |s| > 0
    ensures EmailPattern(s) <==> IsPlain(s[0]) && Accepts(Local, s[1..])
  {
    var t := s[1..];
    if EmailPattern(s) {
      var at :| AtSplit(s, at);
      var u := s[..at];
      AllPlainCons(u);
      assert u[1..] == t[..at - 1];
      assert t[at - 1 + 1..] == s[at + 1..];
      assert LocalSplit(t, at - 1);
    }
    if IsPlain(s[0]) && Accepts(Local, t) {
      var at :| LocalSplit(t, at);
      var u := s[..at + 1];
      assert u[1..] == t[..at];
      AllPlainCons(u);
      assert s[at + 1 + 1..] == t[at + 1..];
      assert AtSplit(s, at + 1);
    }
  }

  lemma LocalStep(s: string)
    requires |s| > 0
    ensures Accepts(Local, s) <==>
      if s[0] == '@' then DomainPattern(s[1..]) else IsPlain(s[0]) && Accepts(Local, s[1..])
  {
    var t := s[1..];
    if Accepts(Local, s) {
      var at :| LocalSplit(s, at);
      if at > 0 {
        var u := s[..at];
        AllPlainCons(u);
        assert u[1..] == t[..at - 1];
        assert t[at - 1 + 1..] == s[at + 1..];
        assert LocalSplit(t, at - 1);
      }
    }
    if s[0] == '@' && DomainPattern(t) {
      assert LocalSplit(s, 0);
    }
    if s[0] != '@' && IsPlain(s[0]) && Accepts(Local, t) {
      var at :| LocalSplit(t, at);
      var u := s[..at + 1];
      assert u[1..] == t[..at];
      AllPlainCons(u);
      assert s[at + 1 + 1..] == t[at + 1..];
      assert LocalSplit(s, at + 1);
    }
  }

  lemma AfterAtStep(s: string)
    requires |s| > 0
    ensures DomainPattern(s) <==> IsPlain(s[0]) && Accepts(Domain, s[1..])
  {
    var t := s[1..];
    if DomainPattern(s) {
      var dot :| DotSplit(s, dot);
      var u, w := s[..dot], s[dot + 1..];
      AllPlainCons(u);
      assert t == u[1..] + ['.'] + w;
      forall i | 0 <= i < |t| ensures IsPlain(t[i]) {
        if i + 1 < dot {
          assert t[i] == u[i + 1];
        } else if i + 1 > dot {
          assert t[i] == w[i - dot];
        }
      }
      assert DotAhead(t, dot - 1);
    }
    if IsPlain(s[0]) && Accepts(Domain, t) {
      var dot :| DotAhead(t, dot);
      var u := s[..dot + 1];
      assert u[1..] == t[..dot];
      AllPlainSlice(t, 0, dot);
      AllPlainCons(u);
      assert s[dot + 1 + 1..] == t[dot + 1..];
      AllPlainSlice(t, dot + 1, |t|);
      assert DotSplit(s, dot + 1);
    }
  }

  lemma DomainStep(s: string)
    requires |s| > 0
    ensures Accepts(Domain, s) <==>
      if s[0] == '.' then OneOrMorePlain(s[1..]) else IsPlain(s[0]) && Accepts(Domain, s[1..])
  {
    var t := s[1..];
    AllPlainCons(s);
    if Accepts(Domain, s) && s[0] != '.' {
      var dot :| DotAhead(s, dot);
      assert DotAhead(t, dot - 1);
    }
    if s[0] != '.' && IsPlain(s[0]) && Accepts(Domain, t) {
      var dot :| DotAhead(t, dot);
      assert DotAhead(s, dot + 1);
    }
    if s[0] == '.' && OneOrMorePlain(t) {
      assert DotAhead(s, 0);
    }
  }

  /** Reading one character moves the matcher to the state whose language is
      exactly what is left of the current state's language. */
  lemma StepPreservesLanguage(q: State, s: string)
    requires |s| > 0
    ensures Accepts(q, s) <==> Accepts(Step(q, s[0]), s[1..])
  {
    match q
    case Start => StartStep(s);
    case Local => LocalStep(s);
    case AfterAt => AfterAtStep(s);
    case Domain => DomainStep(s);
    case Dot => AllPlainCons(s);
    case Accept => AllPlainCons(s);
    case Reject =>
  }

  /** Running the matcher from `q` ends in Accept exactly on `q`'s language. */
  lemma {:induction false} RunDecides(q: State, s: string)
    ensures Run(q, s) == Accept <==> Accepts(q, s)
    decreases |s|
  {
    if |s| > 0 {
      StepPreservesLanguage(q, s);
      RunDecides(Step(q, s[0]), s[1..]);
    } else {
      assert !exists at :: LocalSplit(s, at);
      assert !exists dot :: DotAhead(s, dot);
      assert !exists at :: AtSplit(s, at);
    }
  }

  lemma PatternHasShape(s: string)
    requires EmailPattern(s)
    ensures HasEmailShape(s)
  {
    var at :| AtSplit(s, at);
    var d := s[at + 1..];
    var k :| DotSplit(d, k);
    var dot := at + 1 + k;
    var u, v, w := s[..at], d[..k], d[k + 1..];
    assert s[dot] == '.';
    forall i | 0 <= i < |s| ensures !IsWhitespace(s[i]) && (i != at ==> s[i] != '@') {
      if i < at {
        assert s[i] == u[i];
      } else if at < i < dot {
        assert s[i] == v[i - at - 1];
      } else if dot < i {
        assert s[i] == w[i - dot - 1];
      }
    }
  }

  lemma ShapeHasPattern(s: string)
    requires HasEmailShape(s)
    ensures EmailPattern(s)
  {
    var at :| 0 < at < |s| && s[at] == '@' && (forall i | 0 <= i < |s| && i != at :: s[i] != '@')
              && exists dot | at + 1 < dot < |s| - 1 :: s[dot] == '.';
    var dot :| at + 1 < dot < |s| - 1 && s[dot] == '.';
    var d := s[at + 1..];
    var k := dot - at - 1;
    var u, v, w := s[..at], d[..k], d[k + 1..];
    forall i | 0 <= i < |u| ensures IsPlain(u[i]) {
      assert u[i] == s[i];
    }
    forall i | 0 <= i < |v| ensures IsPlain(v[i]) {
      assert v[i] == s[at + 1 + i];
    }
    forall i | 0 <= i < |w| ensures IsPlain(w[i]) {
      assert w[i] == s[dot + 1 + i];
    }
    assert DotSplit(d, k);
    assert AtSplit(s, at);
  }

  /** `isValidEmail(s)` holds iff `s` has no whitespace, exactly one `@`, a
      non-empty part before it, and a `.` after it that is neither the first
      nor the last character of the part after the `@`. */
  lemma IsValidEmailShape(s: string)
    ensures IsValidEmail(s) <==> HasEmailShape(s)
  {
    if EmailPattern(s) { PatternHasShape(s); }
    if HasEmailShape(s) { ShapeHasPattern(s); }
  }
}
