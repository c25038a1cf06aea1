/** The pattern-based checks of the admission form (src/App.jsx:33, 47, 54).
    Each regular-expression test of the source is modelled by a recursive
    scanner, and each scanner is proved equal to a declarative reference
    predicate that says what the pattern means. */
module Validators {

  /** The class `[0-9]`, which is also JavaScript's `\d`. */
  predicate IsDigit(c: char) {
    '0' <= c <= '9'
  }

  /** JavaScript's `\s`: the ECMAScript WhiteSpace and LineTerminator code points. */
  predicate IsSpace(c: char) {
    || c == '\t' || c == '\n' || c == '\U{000B}' || c == '\U{000C}' || c == '\r'
    || c == ' ' || c == '\U{00A0}' || c == '\U{1680}'
    || ('\U{2000}' <= c <= '\U{200A}')
    || c == '\U{2028}' || c == '\U{2029}' || c == '\U{202F}' || c == '\U{205F}'
    || c == '\U{3000}' || c == '\U{FEFF}'
  }

  // ---------------------------------------------------------------------------
  // Reference definitions: what each pattern means

  /** `/[0-9]/` matches somewhere in `s`. */
  ghost predicate ContainsDigit(s: string) {
    exists i :: 0 <= i < |s| && IsDigit(s[i])
  }

  /** `/^\d{10}$/` matches `s`: exactly ten digits and nothing else. */
  ghost predicate TenDigits(s: string) {
    |s| == 10 && forall i :: 0 <= i < |s| ==> IsDigit(s[i])
  }

  /** Every character of `t` is matched by `\S`. */
  ghost predicate NoSpace(t: string) {
    forall i :: 0 <= i < |t| ==> !IsSpace(t[i])
  }

  /** `/\S+@\S+\.\S+/` matches somewhere in `s`: the match is `s[a..b]`, with
      the `@` at `at` and the escaped dot at `dot`, and the three runs
      around them non-empty and free of white space. */
  ghost predicate EmailShape(s: string) {
    exists a, at, dot, b :: MatchedAt(s, a, at, dot, b)
  }

  /** `s[a..b]` is matched by `\S+@\S+\.\S+`, with the `@` at `at` and the dot at `dot`. */
  ghost predicate MatchedAt(s: string, a: int, at: int, dot: int, b: int) {
    && 0 <= a < at && at + 1 < dot && dot + 1 < b <= |s|
    && s[at] == '@' && s[dot] == '.'
    && NoSpace(s[a..at]) && NoSpace(s[at + 1..dot]) && NoSpace(s[dot + 1..b])
  }

  /** The part of a match after the `@`, with the shortest possible last run:
      `t` starts with `\S+\.\S`. */
  ghost predicate DomainShape(t: string) {
    exists dot :: 0 < dot && dot + 1 < |t| && t[dot] == '.' && NoSpace(t[..dot]) && !IsSpace(t[dot + 1])
  }

  /** A match whose `@` sits at index `at`, with the shortest possible first run. */
  ghost predicate EmailAt(s: string, at: int) {
    0 < at < |s| && s[at] == '@' && !IsSpace(s[at - 1]) && DomainShape(s[at + 1..])
  }

  // ---------------------------------------------------------------------------
  // Scanners: the searches the regular-expression tests perform

  /** Left-to-right search for a digit. */
  function SearchDigit(s: string): (found: bool)
    ensures found <==> ContainsDigit(s)
  {
    if s == [] then false
    else if IsDigit(s[0]) then true
    else
      var rest := SearchDigit(s[1..]);
      assert ContainsDigit(s[1..]) <==> ContainsDigit(s) by {
        if ContainsDigit(s) {
          var i :| 0 <= i < |s| && IsDigit(s[i]);
          assert s[1..][i - 1] == s[i];
        }
        if ContainsDigit(s[1..]) {
          var i :| 0 <= i < |s[1..]| && IsDigit(s[1..][i]);
          assert s[i + 1] == s[1..][i];
        }
      }
      rest
  }

  /** Every character of `s` is a digit. */
  function AllDigits(s: string): (ok: bool)
    ensures ok <==> forall i :: 0 <= i < |s| ==> IsDigit(s[i])
  {
    if s == [] then true
    else
      var rest := AllDigits(s[1..]);
      assert rest ==> forall i :: 1 <= i < |s| ==> IsDigit(s[i]) by {
        if rest {
          forall i | 1 <= i < |s| ensures IsDigit(s[i]) {
            assert s[i] == s[1..][i - 1];
          }
        }
      }
      IsDigit(s[0]) && rest
  }

  /** Does `t`, the text right after an `@`, start with `\S+\.\S`? */
  function DomainPart(t: string): (found: bool)
    ensures found <==> DomainShape(t)
  {
    if |t| < 3 then
      false
    else if IsSpace(t[0]) then
      false
    else if t[1] == '.' && !IsSpace(t[2]) then
      assert NoSpace(t[..1]);
      true
    else
      var rest := DomainPart(t[1..]);
      DomainShift(t);
      rest
  }

  /** Removing a leading non-space character that is not followed by a usable dot
      does not change whether the domain part is present. */
  lemma DomainShift(t: string)
    requires |t| >= 3 && !IsSpace(t[0]) && !(t[1] == '.' && !IsSpace(t[2]))
    ensures DomainShape(t[1..]) <==> DomainShape(t)
  {
    var u := t[1..];
    if DomainShape(t) {
      var dot :| 0 < dot && dot + 1 < |t| && t[dot] == '.' && NoSpace(t[..dot]) && !IsSpace(t[dot + 1]);
      assert dot != 1;
      assert u[dot - 1] == t[dot] && u[dot] == t[dot + 1];
      assert u[..dot - 1] == t[1..dot];
      assert NoSpace(u[..dot - 1]) by {
        forall i | 0 <= i < dot - 1 ensures !IsSpace(u[i]) {
          assert u[i] == t[..dot][i + 1];
        }
      }
    }
    if DomainShape(u) {
      var dot :| 0 < dot && dot + 1 < |u| && u[dot] == '.' && NoSpace(u[..dot]) && !IsSpace(u[dot + 1]);
      assert t[dot + 1] == u[dot] && t[dot + 2] == u[dot + 1];
      assert NoSpace(t[..dot + 1]) by {
        forall i | 0 <= i < dot + 1 ensures !IsSpace(t[i]) {
          if i > 0 {
            assert t[i] == u[..dot][i - 1];
          }
        }
      }
    }
  }

  /** Left-to-right search for a match of `\S+@\S+\.\S+`, trying each `@`. */
  function SearchEmail(s: string): (found: bool)
    ensures found <==> exists at :: EmailAt(s, at)
  {
    if |s| < 2 then
      assert forall at :: !EmailAt(s, at);
      false
    else
      var here := !IsSpace(s[0]) && s[1] == '@' && DomainPart(s[2..]);
      var rest := SearchEmail(s[1..]);
      assert here <==> EmailAt(s, 1);
      assert (exists at :: EmailAt(s, at)) <==> here || (exists at :: EmailAt(s[1..], at)) by {
        forall at | 1 <= at < |s| - 1
          ensures EmailAt(s[1..], at) <==> EmailAt(s, at + 1)
        {
          assert s[1..][at + 1..] == s[at + 2..];
        }
        if exists at :: EmailAt(s, at) {
          var at :| EmailAt(s, at);
          if at > 1 {
            assert EmailAt(s[1..], at - 1);
          }
        }
      }
      here || rest
  }

  /** The four-index description of a match and the one-index description
      used by the scanner agree. */
  lemma {:induction false} EmailShapeAtIff(s: string)
    ensures EmailShape(s) <==> exists at :: EmailAt(s, at)
  {
    if EmailShape(s) {
      var a, at, dot, b :| MatchedAt(s, a, at, dot, b);
      var t := s[at + 1..];
      var d := dot - at - 1;
      assert s[a..at][at - 1 - a] == s[at - 1];
      assert t[..d] == s[at + 1..dot];
      assert t[d] == s[dot];
      assert s[dot + 1..b][0] == t[d + 1];
      assert DomainShape(t);
      assert EmailAt(s, at);
    }
    if exists at :: EmailAt(s, at) {
      var at :| EmailAt(s, at);
      var t := s[at + 1..];
      var d :| 0 < d && d + 1 < |t| && t[d] == '.' && NoSpace(t[..d]) && !IsSpace(t[d + 1]);
      var dot := at + 1 + d;
      assert s[at - 1..at] == [s[at - 1]];
      assert s[at + 1..dot] == t[..d];
      assert s[dot + 1..dot + 2] == [t[d + 1]];
      assert s[dot] == t[d];
      assert MatchedAt(s, at - 1, at, dot, dot + 2);
    }
  }

  // ---------------------------------------------------------------------------
  // The pattern validators: each returns the field's error flag for a value

  /** `name` is in error when a digit occurs anywhere in the value; its length is not checked. */
  function NameError(value: string): (inError: bool)
    ensures inError <==> ContainsDigit(value)
  {
    SearchDigit(value)
  }

  /** `mobile` is in error unless the whole value is ten digits (an anchored pattern). */
  function MobileError(value: string): (inError: bool)
    ensures inError <==> !TenDigits(value)
  {
    !(|value| == 10 && AllDigits(value))
  }

  /** `email` is in error unless the e-mail pattern matches somewhere in the value. */
  function EmailError(value: string): (inError: bool)
    ensures inError <==> !EmailShape(value)
  {
    EmailShapeAtIff(value);
    !SearchEmail(value)
  }

  // ---------------------------------------------------------------------------
  // Properties of the patterns

  /** The e-mail pattern is unanchored: text around a match does not undo it. */
  lemma {:induction false} EmailUnanchored(p: string, s: string, q: string)
    requires EmailShape(s)
    ensures EmailShape(p + s + q)
  {
    var a, at, dot, b :| MatchedAt(s, a, at, dot, b);
    var w := p + s + q;
    var k := |p|;
    InsideSlice(p, s, q, a, at);
    InsideSlice(p, s, q, at + 1, dot);
    InsideSlice(p, s, q, dot + 1, b);
    assert w[k + at] == s[at] && w[k + dot] == s[dot];
    assert MatchedAt(w, k + a, k + at, k + dot, k + b);
  }

  /** A slice of `s` is the same slice of `s` with text around it, shifted. */
  lemma InsideSlice(p: string, s: string, q: string, i: int, j: int)
    requires 0 <= i <= j <= |s|
    ensures (p + s + q)[|p| + i..|p| + j] == s[i..j]
  {
  }

  /** The mobile pattern is anchored: ten digits with anything around them are rejected. */
  lemma MobileAnchored(p: string, v: string, q: string)
    requires !MobileError(v) && |p| + |q| > 0
    ensures MobileError(p + v + q)
  {
  }

  /** A digit anywhere puts `name` in error; the name's length is not checked. */
  lemma {:induction false} NameDigitAnywhere(p: string, d: char, q: string)
    requires IsDigit(d)
    ensures NameError(p + [d] + q)
  {
    assert (p + [d] + q)[|p|] == d;
  }

  // ---------------------------------------------------------------------------
  // Sample verdicts

  /** The name check: a digit anywhere is an error, a two-letter name is not. */
  lemma NameSamples()
    ensures NameError("John3")
    ensures !NameError("Jo")
  {
  }

  /** The mobile check accepts exactly ten digits. */
  lemma MobileSamples()
    ensures !MobileError("9876543210")
    ensures MobileError("12345") && MobileError("98765432101") && MobileError("98765abcde")
  {
    var ok := "9876543210";
    assert forall i :: 0 <= i < |ok| ==> IsDigit(ok[i]);
    assert !IsDigit("98765abcde"[5]);
  }

  /** The e-mail check wants a non-space run on each side of the `@` and after a later dot. */
  lemma EmailSamples()
    ensures !EmailError("a@b.co")
    ensures EmailError("a@b") && EmailError("ab.com") && EmailError("")
  {
    assert SearchEmail("a@b.co");
    assert !SearchEmail("a@b");
    assert !SearchEmail("ab.com");
  }
}
