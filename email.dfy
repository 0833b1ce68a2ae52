/**
 * The email pattern of the user schema,
 *   /^\w+([.-]?\w+)*@\w+([.-]?\w+)*(\.\w{2,3})+$/
 * stated twice: declaratively (ValidEmail) and as a hand-written
 * left-to-right recognizer (Recognize), with a proof that they agree.
 */
module EmailPattern {
  import opened Wrappers

  /** `\w` of a JavaScript regular expression without the `u` flag. */
  predicate IsWordChar(c: char) {
    ('A' <= c <= 'Z') || ('a' <= c <= 'z') || ('0' <= c <= '9') || c == '_'
  }

  /** The separators `[.-]`. */
  predicate IsSep(c: char) {
    c == '.' || c == '-'
  }

  // ---------------------------------------------------------------------
  // Declarative meaning
  // ---------------------------------------------------------------------

  /** Only word characters and separators, and every separator directly follows a word character. */
  ghost predicate SepForm(s: string) {
    && (forall i | 0 <= i < |s| :: IsWordChar(s[i]) || IsSep(s[i]))
    && (forall i | 0 <= i < |s| && IsSep(s[i]) :: 0 < i && IsWordChar(s[i - 1]))
  }

  /**
   * Non-empty runs of word characters joined by single separators, with no
   * leading, trailing or doubled separator: the language of `\w+([.-]?\w+)*`.
   */
  ghost predicate DottedWords(s: string) {
    |s| > 0 && SepForm(s) && IsWordChar(s[|s| - 1])
  }

  /** The last separator is a dot, followed by the final segment of 2 or 3 word characters. */
  ghost predicate DotTail(d: string) {
    exists p | 0 <= p < |d| ::
      && d[p] == '.'
      && 2 <= |d| - 1 - p <= 3
      && (forall j | p < j < |d| :: IsWordChar(d[j]))
  }

  /** The language of `\w+([.-]?\w+)*(\.\w{2,3})+`. */
  ghost predicate ValidDomain(d: string) {
    DottedWords(d) && DotTail(d)
  }

  /** A local part, one `@`, and a domain. */
  ghost predicate ValidEmail(e: string) {
    exists a | 0 <= a < |e| :: e[a] == '@' && DottedWords(e[..a]) && ValidDomain(e[a + 1..])
  }

  // ---------------------------------------------------------------------
  // The recognizer
  // ---------------------------------------------------------------------

  /** What the recognizer remembers about the prefix read so far. */
  datatype ScanState =
    | LocalStart                                     // nothing read
    | LocalWord                                      // local part, ends in a word character
    | LocalSep                                       // local part, ends in a separator
    | DomainStart                                    // the '@' was just read
    | DomainWord(run: nat, lastSep: Option<char>)    // domain, ends in `run` (at most 4) word characters
    | DomainSep(sep: char)                           // domain, ends in a separator
    | Reject                                         // no extension can match

  /** Run lengths past 3 are all the same to the pattern. */
  function Cap(n: nat): nat {
    if n < 4 then n else 4
  }

  function Step(st: ScanState, c: char): ScanState {
    match st
    case LocalStart => if IsWordChar(c) then LocalWord else Reject
    case LocalWord =>
      if IsWordChar(c) then LocalWord
      else if IsSep(c) then LocalSep
      else if c == '@' then DomainStart
      else Reject
    case LocalSep => if IsWordChar(c) then LocalWord else Reject
    case DomainStart => if IsWordChar(c) then DomainWord(1, None) else Reject
    case DomainWord(run, lastSep) =>
      if IsWordChar(c) then DomainWord(Cap(run + 1), lastSep)
      else if IsSep(c) then DomainSep(c)
      else Reject
    case DomainSep(sep) => if IsWordChar(c) then DomainWord(1, Some(sep)) else Reject
    case Reject => Reject
  }

  function Scan(s: string): ScanState {
    if s == [] then LocalStart else Step(Scan(s[..|s| - 1]), s[|s| - 1])
  }

  predicate Accepting(st: ScanState) {
    st.DomainWord? && st.lastSep == Some('.') && 2 <= st.run <= 3
  }

  /** The recognizer the schema's `match` rule runs. */
  predicate Recognize(e: string): (ok: bool)
    ensures ok <==> ValidEmail(e)
  {
    RecognizeCorrect(e);
    Accepting(Scan(e))
  }

  // ---------------------------------------------------------------------
  // Correctness of the recognizer
  // ---------------------------------------------------------------------

  /** The position of the first '@', if any. */
  function FindAt(s: string): (r: Option<nat>)
    ensures r.None? ==> forall i | 0 <= i < |s| :: s[i] != '@'
    ensures r.Some? ==> r.value < |s| && s[r.value] == '@' && forall i | 0 <= i < r.value :: s[i] != '@'
  {
    if s == [] then None
    else match FindAt(s[..|s| - 1])
      case Some(a) => Some(a)
      case None => if s[|s| - 1] == '@' then Some(|s| - 1) else None
  }

  /** The length of the longest suffix of word characters. */
  ghost function TrailingRun(s: string): (n: nat)
    ensures n <= |s|
    ensures forall j | |s| - n <= j < |s| :: IsWordChar(s[j])
    ensures n < |s| ==> !IsWordChar(s[|s| - 1 - n])
  {
    if s == [] || !IsWordChar(s[|s| - 1]) then 0 else TrailingRun(s[..|s| - 1]) + 1
  }

  /** The state after reading a prefix that holds no '@'. */
  ghost function ClassifyLocal(s: string): ScanState {
    if s == [] then LocalStart
    else if !SepForm(s) then Reject
    else if IsWordChar(s[|s| - 1]) then LocalWord
    else LocalSep
  }

  /** The state after reading a valid local part, the '@' and then `d`. */
  ghost function ClassifyDomain(d: string): ScanState {
    if !SepForm(d) then Reject
    else if d == [] then DomainStart
    else if IsSep(d[|d| - 1]) then DomainSep(d[|d| - 1])
    else
      var n := TrailingRun(d);
      DomainWord(Cap(n), if n < |d| then Some(d[|d| - 1 - n]) else None)
  }

  /** The state the recognizer must be in after reading `s`, described without the recognizer. */
  ghost function Classify(s: string): ScanState {
    match FindAt(s)
    case None => ClassifyLocal(s)
    case Some(a) => if DottedWords(s[..a]) then ClassifyDomain(s[a + 1..]) else Reject
  }

  lemma SepFormAppend(s: string, c: char)
    ensures SepForm(s + [c]) <==>
              SepForm(s) && (IsWordChar(c) || (IsSep(c) && |s| > 0 && IsWordChar(s[|s| - 1])))
  {
    var t := s + [c];
    assert forall i | 0 <= i < |s| :: t[i] == s[i];
    assert t[|s|] == c;
    if SepForm(s) && (IsWordChar(c) || (IsSep(c) && |s| > 0 && IsWordChar(s[|s| - 1]))) {
      forall i | 0 <= i < |t| && IsSep(t[i]) ensures 0 < i && IsWordChar(t[i - 1]) {
        if i < |s| {
          assert t[i] == s[i] && t[i - 1] == s[i - 1];
        }
      }
    }
  }

  lemma TrailingRunAppend(d: string, c: char)
    ensures TrailingRun(d + [c]) == if IsWordChar(c) then TrailingRun(d) + 1 else 0
  {
    assert (d + [c])[..|d|] == d;
  }

  lemma StepClassifyLocal(s: string, c: char)
    requires c != '@'
    ensures ClassifyLocal(s + [c]) == Step(ClassifyLocal(s), c)
  {
    SepFormAppend(s, c);
  }

  lemma StepClassifyDomain(d: string, c: char)
    ensures ClassifyDomain(d + [c]) == Step(ClassifyDomain(d), c)
  {
    SepFormAppend(d, c);
    TrailingRunAppend(d, c);
    if SepForm(d) && d != [] && !IsSep(d[|d| - 1]) && IsWordChar(c) {
      var n := TrailingRun(d);
      if n < |d| {
        assert (d + [c])[|d + [c]| - 1 - (n + 1)] == d[|d| - 1 - n];
      }
    }
  }

  /** Reading one more character moves the described state exactly as Step does. */
  lemma StepClassify(s: string, c: char)
    ensures Classify(s + [c]) == Step(Classify(s), c)
  {
    var t := s + [c];
    assert t[..|s|] == s;
    match FindAt(s)
    case None =>
      if c == '@' {
        assert FindAt(t) == Some(|s|);
        assert t[|s| + 1..] == [];
      } else {
        assert FindAt(t) == None;
        StepClassifyLocal(s, c);
      }
    case Some(a) =>
      assert FindAt(t) == Some(a);
      assert t[..a] == s[..a];
      assert t[a + 1..] == s[a + 1..] + [c];
      StepClassifyDomain(s[a + 1..], c);
  }

  lemma {:induction false} ScanClassify(s: string)
    ensures Scan(s) == Classify(s)
    decreases |s|
  {
    if s != [] {
      var init, c := s[..|s| - 1], s[|s| - 1];
      assert s == init + [c];
      ScanClassify(init);
      StepClassify(init, c);
    }
  }

  lemma AcceptedIsValid(e: string)
    requires Accepting(Classify(e))
    ensures ValidEmail(e)
  {
    var a := FindAt(e).value;
    var d := e[a + 1..];
    var n := TrailingRun(d);
    var p := |d| - 1 - n;
    assert d[p] == '.' && 2 <= |d| - 1 - p <= 3;
    assert DotTail(d);
    assert ValidDomain(d);
  }

  lemma FirstAt(e: string, a: nat)
    requires a < |e| && e[a] == '@' && forall i | 0 <= i < a :: e[i] != '@'
    ensures FindAt(e) == Some(a)
  {
  }

  lemma SepFormHasNoAt(s: string)
    requires SepForm(s)
    ensures forall i | 0 <= i < |s| :: s[i] != '@'
  {
  }

  /** After a local part without '@' and the '@', the state is the domain's. */
  lemma ClassifyJoin(l: string, d: string)
    requires forall i | 0 <= i < |l| :: l[i] != '@'
    ensures Classify(l + ['@'] + d) == if DottedWords(l) then ClassifyDomain(d) else Reject
  {
    var e := l + ['@'] + d;
    assert forall i | 0 <= i < |l| :: e[i] == l[i];
    FirstAt(e, |l|);
    assert e[..|l|] == l;
    assert e[|l| + 1..] == d;
  }

  /** The position of the '@' a valid address is split at. */
  lemma ValidEmailAt(e: string) returns (a: nat)
    requires ValidEmail(e)
    ensures a < |e| && e[a] == '@' && DottedWords(e[..a]) && ValidDomain(e[a + 1..])
  {
    a :| 0 <= a < |e| && e[a] == '@' && DottedWords(e[..a]) && ValidDomain(e[a + 1..]);
  }

  lemma SplitAt(e: string, a: nat)
    requires a < |e| && e[a] == '@'
    ensures e == e[..a] + ['@'] + e[a + 1..]
  {
  }

  /** The split a valid address is made of. */
  lemma ValidEmailSplit(e: string) returns (l: string, d: string)
    requires ValidEmail(e)
    ensures e == l + ['@'] + d && DottedWords(l) && ValidDomain(d)
  {
    var a := ValidEmailAt(e);
    SplitAt(e, a);
    l, d := e[..a], e[a + 1..];
  }

  /** Joining two dotted-word strings with one separator gives a dotted-word string. */
  lemma DottedJoin(x: string, c: char, y: string)
    requires DottedWords(x) && IsSep(c) && DottedWords(y)
    ensures DottedWords(x + [c] + y)
  {
    var t := x + [c] + y;
    assert forall i | 0 <= i < |x| :: t[i] == x[i];
    assert t[|x|] == c;
    assert forall i | 0 <= i < |y| :: t[|x| + 1 + i] == y[i];
    forall i | 0 <= i < |t| && IsSep(t[i]) ensures 0 < i && IsWordChar(t[i - 1]) {
      if i > |x| + 1 {
        assert t[i] == y[i - |x| - 1] && t[i - 1] == y[i - |x| - 2];
      }
    }
  }

  /** A non-word character followed only by word characters fixes the trailing run. */
  lemma TrailingRunAt(d: string, p: nat)
    requires p < |d| && !IsWordChar(d[p]) && forall j | p < j < |d| :: IsWordChar(d[j])
    ensures TrailingRun(d) == |d| - 1 - p
  {
  }

  lemma DomainAccepted(d: string)
    requires ValidDomain(d)
    ensures Accepting(ClassifyDomain(d))
  {
    var p :| 0 <= p < |d| && d[p] == '.' && 2 <= |d| - 1 - p <= 3 &&
             (forall j | p < j < |d| :: IsWordChar(d[j]));
    TrailingRunAt(d, p);
    assert !IsSep(d[|d| - 1]);
  }

  lemma ValidIsAccepted(e: string)
    requires ValidEmail(e)
    ensures Accepting(Classify(e))
  {
    var l, d := ValidEmailSplit(e);
    SepFormHasNoAt(l);
    ClassifyJoin(l, d);
    DomainAccepted(d);
  }

  /** The scanner ends in an accepting state on exactly the strings the pattern describes. */
  lemma RecognizeCorrect(e: string)
    ensures Accepting(Scan(e)) <==> ValidEmail(e)
  {
    ScanClassify(e);
    if Accepting(Scan(e)) {
      AcceptedIsValid(e);
    }
    if ValidEmail(e) {
      ValidIsAccepted(e);
    }
  }

  /** In `l + ['@'] + d` with no '@' in `l` or `d`, the '@' is the only one. */
  lemma OnlyAt(l: string, d: string)
    requires forall i | 0 <= i < |l| :: l[i] != '@'
    requires forall i | 0 <= i < |d| :: d[i] != '@'
    ensures forall i | 0 <= i < |l + ['@'] + d| && i != |l| :: (l + ['@'] + d)[i] != '@'
  {
    var e := l + ['@'] + d;
    forall i | 0 <= i < |e| && i != |l| ensures e[i] != '@' {
      if i < |l| { assert e[i] == l[i]; } else { assert e[i] == d[i - |l| - 1]; }
    }
  }

  /** A valid email address has exactly one '@'. */
  lemma ValidEmailOneAt(e: string)
    requires ValidEmail(e)
    ensures exists a | 0 <= a < |e| :: e[a] == '@' && forall i | 0 <= i < |e| && i != a :: e[i] != '@'
  {
    var l, d := ValidEmailSplit(e);
    SepFormHasNoAt(l);
    SepFormHasNoAt(d);
    OnlyAt(l, d);
    assert e[|l|] == '@';
  }

  // Concrete cases of the pattern. Each address is a parameter fixed by its
  // requires, so the verifier works from the lemmas above instead of
  // unfolding the recognizer on a literal.

  /** `alice@example.com`; the three parts are parameters so the proof can split the address at its `@` and its last `.`. */
  lemma AcceptsPlainAddress(l: string, x: string, y: string)
    requires l == "alice" && x == "example" && y == "com"
    ensures Recognize(l + "@" + x + "." + y)
  {
    var d := x + ['.'] + y;
    assert l + "@" + x + "." + y == l + ['@'] + d;
    DottedJoin(x, '.', y);
    TrailingRunAt(d, |x|);
    SepFormHasNoAt(l);
    ClassifyJoin(l, d);
    ScanClassify(l + ['@'] + d);
  }

  lemma RejectsOneLetterTld(e: string)
    requires e == "a@b.c"
    ensures !Recognize(e)
  {
    ScanClassify(e);
    FirstAt(e, 1);
    assert e[2..] == "b.c";
    TrailingRunAt("b.c", 1);
    assert TrailingRun("b.c") == 1;
  }

  lemma RejectsFourLetterTld(e: string)
    requires e == "a@b.info"
    ensures !Recognize(e)
  {
    ScanClassify(e);
    FirstAt(e, 1);
    assert e[2..] == "b.info";
    TrailingRunAt("b.info", 1);
    assert TrailingRun("b.info") == 4;
  }

  lemma RejectsDoubledSeparator(e: string)
    requires e == "a..b@c.com"
    ensures !Recognize(e)
  {
    ScanClassify(e);
    FirstAt(e, 4);
    var l := e[..4];
    assert l[2] == '.' && l[1] == '.';
  }

  lemma RejectsSecondAt(e: string)
    requires e == "a@b@c.com"
    ensures !Recognize(e)
  {
    ScanClassify(e);
    FirstAt(e, 1);
    assert e[2..][1] == '@';
  }
}
