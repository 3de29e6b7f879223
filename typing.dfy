/** The text side of a progress update: which characters count as whitespace,
    how the typed buffer is split into words, whether the buffer is a correct
    prefix of the race text, and the progress and words-per-minute figures
    derived from it. Everything here is a pure function of its inputs. */
module Typing {

  /** JavaScript's whitespace class: the characters that `String.prototype.trim`
      strips and that the regular expression `\s` matches. */
  predicate IsSpace(c: char)
  {
    || c == ' ' || c == '\t' || c == '\n' || c == '\r'
    || c == '\U{B}' || c == '\U{C}' || c == '\U{A0}' || c == '\U{1680}'
    || ('\U{2000}' <= c <= '\U{200A}')
    || c == '\U{2028}' || c == '\U{2029}' || c == '\U{202F}' || c == '\U{205F}'
    || c == '\U{3000}' || c == '\U{FEFF}'
  }

  predicate NoSpace(w: string)
  {
    forall i :: 0 <= i < |w| ==> !IsSpace(w[i])
  }

  predicate AllSpace(s: string)
  {
    forall i :: 0 <= i < |s| ==> IsSpace(s[i])
  }

  function Min(a: int, b: int): int
  {
    if a <= b then a else b
  }

  /** Length of the run of non-whitespace characters that starts `s`. */
  function RunLength(s: string): (n: nat)
    ensures n <= |s|
    ensures forall i :: 0 <= i < n ==> !IsSpace(s[i])
    ensures n < |s| ==> IsSpace(s[n])
  {
    if s == [] || IsSpace(s[0]) then 0 else 1 + RunLength(s[1..])
  }

  /** The maximal whitespace-free runs of `s`, in order. When `s` holds a
      non-whitespace character this is what `s.trim().split(/\s+/)` returns. */
  function Words(s: string): (ws: seq<string>)
    decreases |s|
    ensures forall i :: 0 <= i < |ws| ==> ws[i] != [] && NoSpace(ws[i])
  {
    if s == [] then []
    else if IsSpace(s[0]) then Words(s[1..])
    else
      var n := RunLength(s);
      [s[..n]] + Words(s[n..])
  }

  /** A buffer splits into no words exactly when it is all whitespace. */
  lemma {:induction false} WordsEmptyIff(s: string)
    ensures Words(s) == [] <==> AllSpace(s)
    decreases |s|
  {
    if s != [] && IsSpace(s[0]) {
      WordsEmptyIff(s[1..]);
      if AllSpace(s[1..]) {
        forall i | 0 <= i < |s| ensures IsSpace(s[i]) {
          if i > 0 { assert s[i] == s[1..][i - 1]; }
        }
      } else {
        var j :| 0 <= j < |s[1..]| && !IsSpace(s[1..][j]);
        assert !IsSpace(s[j + 1]);
      }
    }
  }

  /** `typedText.trim().split(/\s+/).length`: the number of words of the
      buffer, except that a buffer with no word still splits into `[""]`. */
  function WordCount(s: string): (n: nat)
    ensures n >= 1
    ensures AllSpace(s) ==> n == 1
    ensures !AllSpace(s) ==> n == |Words(s)|
  {
    WordsEmptyIff(s);
    if Words(s) == [] then 1 else |Words(s)|
  }

  /** The run at the head of `a + [sp] + b` ends inside `a` or at `sp`. */
  lemma RunLengthBeforeSpace(a: string, sp: char, b: string)
    requires IsSpace(sp)
    ensures RunLength(a + [sp] + b) == RunLength(a)
  {
    var s := a + [sp] + b;
    var m := RunLength(a);
    var n := RunLength(s);
    assert forall i :: 0 <= i < m ==> s[i] == a[i];
    assert IsSpace(s[m]) by {
      if m < |a| { assert s[m] == a[m]; } else { assert s[m] == sp; }
    }
  }

  /** A single whitespace character separates the words on either side. */
  lemma {:induction false} WordsAppend(a: string, sp: char, b: string)
    requires IsSpace(sp)
    ensures Words(a + [sp] + b) == Words(a) + Words(b)
    decreases |a|
  {
    var s := a + [sp] + b;
    if a == [] {
      assert s[1..] == b;
    } else if IsSpace(a[0]) {
      assert s[1..] == a[1..] + [sp] + b;
      WordsAppend(a[1..], sp, b);
    } else {
      RunLengthBeforeSpace(a, sp, b);
      var n := RunLength(a);
      assert s[..n] == a[..n];
      assert s[n..] == a[n..] + [sp] + b;
      WordsAppend(a[n..], sp, b);
    }
  }

  /** Words joined by single spaces, the inverse of splitting. */
  function Unwords(ws: seq<string>): string
  {
    if ws == [] then []
    else if |ws| == 1 then ws[0]
    else ws[0] + [' '] + Unwords(ws[1..])
  }

  lemma WordsOfWord(w: string)
    requires w != [] && NoSpace(w)
    ensures Words(w) == [w]
  {
    var n := RunLength(w);
    assert n == |w|;
    assert w[..n] == w && w[n..] == [];
  }

  /** Splitting undoes joining: a list of non-empty whitespace-free words
      joined by spaces splits back into the same list. */
  lemma {:induction false} WordsUnwords(ws: seq<string>)
    requires forall i :: 0 <= i < |ws| ==> ws[i] != [] && NoSpace(ws[i])
    ensures Words(Unwords(ws)) == ws
    decreases |ws|
  {
    if |ws| == 1 {
      WordsOfWord(ws[0]);
    } else if |ws| > 1 {
      WordsOfWord(ws[0]);
      WordsUnwords(ws[1..]);
      WordsAppend(ws[0], ' ', Unwords(ws[1..]));
      assert [ws[0]] + ws[1..] == ws;
    }
  }

  /** `text.slice(0, typed.length) === typed`, the feedback flag. The slice
      stops at the end of the text, so the flag holds exactly when the typed
      buffer is a prefix of the text. */
  function Matches(typed: string, text: string): (ok: bool)
    ensures ok <==> typed <= text
    ensures |typed| > |text| ==> !ok
  {
    text[..Min(|typed|, |text|)] == typed
  }

  /** Once the buffer has diverged from the text, typing more never repairs it. */
  lemma MismatchPersists(typed: string, more: string, text: string)
    requires !Matches(typed, text)
    ensures !Matches(typed + more, text)
  {
  }

  /** A fraction `num / den`. */
  datatype Ratio = Ratio(num: nat, den: nat)

  /** `Math.min(typed.length / text.length, 1)`, kept as an exact fraction. */
  function ProgressOf(typedLen: nat, textLen: nat): (p: Ratio)
    requires textLen > 0
    ensures p.den == textLen && p.num <= p.den
    ensures p.num == p.den <==> typedLen >= textLen
    ensures typedLen <= textLen ==> p.num == typedLen
  {
    Ratio(Min(typedLen, textLen), textLen)
  }

  /** Progress never falls while the buffer grows. */
  lemma ProgressMonotone(a: nat, b: nat, textLen: nat)
    requires textLen > 0 && a <= b
    ensures ProgressOf(a, textLen).num <= ProgressOf(b, textLen).num
  {
  }

  const MsPerMinute: nat := 60000

  /** `Math.floor(words / minutes)` when `minutes = elapsedMs / 60000` is
      positive, else 0: the largest whole number of words per minute that
      the elapsed time covers. */
  function Wpm(words: nat, elapsedMs: int): (r: nat)
    ensures elapsedMs <= 0 ==> r == 0
    ensures elapsedMs > 0 ==> r * elapsedMs <= words * MsPerMinute < (r + 1) * elapsedMs
  {
    if elapsedMs > 0 then words * MsPerMinute / elapsedMs else 0
  }
}
