/** A rejection as text: printed for the user, read back to decide whether to dial again
    (crates/client/src/connection.rs, `classify` in crates/client/src/app.rs). */
module Rejection {
  import opened Options

  const MARK: string := "rejected (code "
  const MAX_CODE := 65535

  // --- decimal numbers ----------------------------------------------------------------

  predicate IsDigit(c: char) { '0' <= c <= '9' }

  function Digit(d: nat): char
    requires d < 10
  {
    '0' + d as char
  }

  function Decimal(n: nat): string {
    if n < 10 then [Digit(n)] else Decimal(n / 10) + [Digit(n % 10)]
  }

  /** The value of a run of digits. */
  function Value(s: string): nat
    requires forall c :: c in s ==> IsDigit(c)
  {
    if s == [] then 0
    else
      var last := s[|s| - 1];
      assert last in s && IsDigit(last);
      10 * Value(s[..|s| - 1]) + (last as int - '0' as int)
  }

  /** Reading a sixteen-bit number: an optional `+`, at least one digit, nothing else, and in
      range. */
  function ParseU16(s: string): Option<nat> {
    var digits := if s != [] && s[0] == '+' then s[1..] else s;
    if digits == [] || exists c :: c in digits && !IsDigit(c) then None
    else if Value(digits) > MAX_CODE then None
    else Some(Value(digits))
  }

  lemma {:induction false} DecimalIsDigits(n: nat)
    ensures Decimal(n) != [] && forall c :: c in Decimal(n) ==> IsDigit(c)
    ensures Value(Decimal(n)) == n
  {
    if n >= 10 {
      DecimalIsDigits(n / 10);
      assert Decimal(n)[..|Decimal(n)| - 1] == Decimal(n / 10);
    } else {
      assert Value([Digit(n)]) == 10 * Value([]) + n;
    }
  }

  /** Printing and reading a number back, with or without a `+`; one that is too large, and one
      with anything else in it, is not read. */
  lemma PrintedReadsBack(n: nat)
    ensures ParseU16(Decimal(n)) == (if n <= MAX_CODE then Some(n) else None)
    ensures ParseU16("+" + Decimal(n)) == ParseU16(Decimal(n))
  {
    DecimalIsDigits(n);
    assert Decimal(n)[0] in Decimal(n);
    assert ("+" + Decimal(n))[1..] == Decimal(n);
  }

  lemma OnlyDigitsAreRead(s: string, i: nat)
    requires i < |s| && !IsDigit(s[i]) && (i > 0 || s[0] != '+')
    ensures ParseU16(s) == None && ParseU16("") == None && ParseU16("+") == None
  {
    assert s[i] in s;
    assert i > 0 ==> s[1..][i - 1] == s[i];
  }

  // --- the text of a rejection ----------------------------------------------------------

  function RejectionReason(code: nat, reason: string): string {
    MARK + Decimal(code) + "): " + reason
  }

  /** What comes before the first `c`. */
  function Before(s: string, c: char): Option<string> {
    if s == [] then None
    else if s[0] == c then Some([])
    else match Before(s[1..], c)
      case None => None
      case Some(head) => Some([s[0]] + head)
  }

  lemma {:induction false} BeforeFirst(head: string, c: char, tail: string)
    requires c !in head
    ensures Before(head + [c] + tail, c) == Some(head)
  {
    var s := head + [c] + tail;
    if head != [] {
      BeforeFirst(head[1..], c, tail);
      assert s[1..] == head[1..] + [c] + tail;
      assert head == [head[0]] + head[1..];
    }
  }

  function RejectionCode(text: string): (code: Option<nat>)
    ensures code.Some? ==> MARK <= text && code.value <= MAX_CODE
  {
    if !(MARK <= text) then None
    else match Before(text[|MARK|..], ')')
      case None => None
      case Some(number) => ParseU16(number)
  }

  /** ROUND TRIP: the code comes back out of the text, whatever the reason says. */
  lemma CodeReadsBack(code: nat, reason: string)
    requires code <= MAX_CODE
    ensures RejectionCode(RejectionReason(code, reason)) == Some(code)
  {
    var rest := Decimal(code) + [')'] + (": " + reason);
    assert RejectionReason(code, reason) == MARK + rest;
    DecimalIsDigits(code);
    BeforeFirst(Decimal(code), ')', ": " + reason);
    PrintedReadsBack(code);
  }

  // --- searching ------------------------------------------------------------------------

  /** Over the occurrences of the mark, left to right and not overlapping. */
  predicate MentionsRejection(text: string) {
    if |text| < |MARK| then false
    else if MARK <= text then RejectionCode(text).Some? || MentionsRejection(text[|MARK|..])
    else MentionsRejection(text[1..])
  }

  /** Somewhere in the text a rejection starts. */
  ghost predicate HasRejection(text: string) {
    exists i :: 0 <= i <= |text| && RejectionCode(text[i..]).Some?
  }

  /** The mark has no proper border: no other occurrence starts inside one. */
  lemma MarkDoesNotOverlap(text: string, i: nat)
    requires MARK <= text && 0 < i < |MARK| && i <= |text|
    ensures !(MARK <= text[i..])
  {
    assert forall k :: 0 < k < |MARK| ==> MARK[k] != MARK[0];
    assert i < |text| ==> text[i] == MARK[i] && text[i..][0] == text[i];
  }

  /** THE SEARCH MISSES NOTHING: stepping over whole occurrences finds a rejection exactly
      when one starts anywhere in the text. */
  lemma {:induction false} SearchIsComplete(text: string)
    ensures MentionsRejection(text) <==> HasRejection(text)
    decreases |text|
  {
    if |text| >= |MARK| {
      var n := if MARK <= text then |MARK| else 1;
      SearchIsComplete(text[n..]);
      if HasRejection(text[n..]) {
        var i :| 0 <= i <= |text[n..]| && RejectionCode(text[n..][i..]).Some?;
        assert text[n..][i..] == text[n + i..];
      }
      if HasRejection(text) {
        var i :| 0 <= i <= |text| && RejectionCode(text[i..]).Some?;
        if 0 < i < n {
          MarkDoesNotOverlap(text, i);
        } else if i >= n {
          assert text[n..][i - n..] == text[i..];
        }
        assert i == 0 ==> text[0..] == text;
      }
      assert text[0..] == text;
    }
  }

  // --- whether to dial again ----------------------------------------------------------

  datatype Fate = Retry | Fatal

  const FATAL: seq<string> := ["another client connected", "protocol error", "desktop session has ended"]

  function Lower(text: string): string {
    seq(|text|, i requires 0 <= i < |text| => if 'A' <= text[i] <= 'Z' then text[i] - 'A' + 'a' else text[i])
  }

  predicate Contains(text: string, needle: string) {
    needle <= text || (text != [] && Contains(text[1..], needle))
  }

  lemma {:induction false} ContainsSomewhere(text: string, needle: string)
    ensures Contains(text, needle) <==> exists i :: 0 <= i <= |text| && needle <= text[i..]
  {
    assert text[0..] == text;
    if text != [] {
      ContainsSomewhere(text[1..], needle);
      if i :| 0 <= i <= |text| && needle <= text[i..] {
        assert i > 0 ==> text[1..][i - 1..] == text[i..];
      }
      if i :| 0 <= i <= |text[1..]| && needle <= text[1..][i..] {
        assert text[1..][i..] == text[i + 1..];
      }
    }
  }

  function Classify(reason: string): Fate {
    if MentionsRejection(reason) then Fatal
    else if exists f :: f in FATAL && Contains(Lower(reason), f) then Fatal
    else Retry
  }

  /** Fatal exactly when a rejection, or one of the fatal phrases in any case, starts
      somewhere in the reason. */
  lemma FatalExactly(reason: string)
    ensures Classify(reason) == Fatal <==>
            HasRejection(reason) || exists f, i :: f in FATAL && 0 <= i <= |reason| && f <= Lower(reason)[i..]
  {
    SearchIsComplete(reason);
    forall f ensures Contains(Lower(reason), f) <==> exists i :: 0 <= i <= |reason| && f <= Lower(reason)[i..] {
      ContainsSomewhere(Lower(reason), f);
    }
  }

  predicate SameLetter(a: char, b: char) {
    a == b || ('A' <= a <= 'Z' && b == a - 'A' + 'a') || ('A' <= b <= 'Z' && a == b - 'A' + 'a')
  }

  /** The texts differ in the case of ASCII letters only. */
  ghost predicate SameLetters(a: string, b: string) {
    |a| == |b| && forall i :: 0 <= i < |a| ==> SameLetter(a[i], b[i])
  }

  lemma {:induction false} LowerIsTheLetters(a: string, b: string)
    ensures Lower(a) == Lower(b) <==> SameLetters(a, b)
    ensures SameLetters(a, Lower(a))
  {
    if Lower(a) == Lower(b) {
      assert |Lower(a)| == |a| && |Lower(b)| == |b|;
      forall i | 0 <= i < |a| ensures SameLetter(a[i], b[i]) {
        assert Lower(a)[i] == Lower(b)[i];
      }
    }
  }

  /** CASE DOES NOT MATTER to a fatal phrase: reasons that differ in the case of ASCII letters only
      have the same fate, unless one of them alone mentions a rejection. */
  lemma CaseDoesNotMatter(a: string, b: string)
    requires SameLetters(a, b)
    ensures Classify(a) == Classify(b) || MentionsRejection(a) != MentionsRejection(b)
  {
    LowerIsTheLetters(a, b);
  }

  /** Around a fatal phrase, in any case, anything may stand. */
  lemma PhraseIsFatal(before: string, spelled: string, after: string, phrase: string)
    requires phrase in FATAL && SameLetters(spelled, phrase)
    ensures Classify(before + spelled + after) == Fatal
  {
    var text := before + spelled + after;
    LowerIsTheLetters(spelled, phrase);
    assert Lower(phrase) == phrase;
    assert phrase <= Lower(text)[|before|..] by {
      assert forall i :: 0 <= i < |spelled| ==> Lower(text)[|before| + i] == Lower(spelled)[i];
    }
    ContainsSomewhere(Lower(text), phrase);
  }

  /** A RETRY NEVER REPEATS A REJECTION: under any wrapping context a rejection is fatal. */
  lemma WrappedRejectionIsFatal(context: string, code: nat, reason: string)
    requires code <= MAX_CODE
    ensures MentionsRejection(context + RejectionReason(code, reason))
    ensures Classify(context + RejectionReason(code, reason)) == Fatal
  {
    var text := context + RejectionReason(code, reason);
    CodeReadsBack(code, reason);
    assert text[|context|..] == RejectionReason(code, reason);
    SearchIsComplete(text);
  }
}
