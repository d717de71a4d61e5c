/** Character-level helpers the readers share: trimming with a blank-char
    predicate (Kotlin's `trim { it <= ' ' }` and Swift's
    `trimmingCharacters(in: .whitespacesAndNewlines)`), the filter that keeps
    the non-empty trimmed sentences of a segmentation, and decimal digits. */
module TextUtil {

  /** Kotlin's `it <= ' '`: every code unit up to and including the space. */
  predicate IsLowChar(c: char) {
    c <= ' '
  }

  /** Foundation's `whitespacesAndNewlines`: the Unicode separators (general
      category Z*), tab, the line breaks U+000A to U+000D, and NEL U+0085. */
  predicate IsWhitespaceOrNewline(c: char) {
    c == ' ' || c == '\t' || ('\n' <= c <= '\r') || c == '\U{0085}' || c == '\U{00A0}'
    || c == '\U{1680}' || ('\U{2000}' <= c <= '\U{200A}') || c == '\U{2028}' || c == '\U{2029}'
    || c == '\U{202F}' || c == '\U{205F}' || c == '\U{3000}'
  }

  /** The number of blank characters at the front of `s`. */
  function LeadingBlanks(s: string, blank: char -> bool): (n: nat)
    ensures n <= |s|
  {
    if |s| == 0 || !blank(s[0]) then 0 else 1 + LeadingBlanks(s[1..], blank)
  }

  /** The leading blanks are blank, and the next character is not. */
  lemma {:induction false} LeadingBlanksSpec(s: string, blank: char -> bool)
    ensures var n := LeadingBlanks(s, blank);
      (forall k :: 0 <= k < n ==> blank(s[k])) && (n < |s| ==> !blank(s[n]))
  {
    if |s| > 0 && blank(s[0]) {
      LeadingBlanksSpec(s[1..], blank);
      var n := LeadingBlanks(s, blank);
      forall k | 0 <= k < n
        ensures blank(s[k])
      {
        if k > 0 {
          assert s[k] == s[1..][k - 1];
        }
      }
    }
  }

  /** The end of `s` once its trailing blank characters are cut off. */
  function TrailingStart(s: string, blank: char -> bool): (n: nat)
    ensures n <= |s|
  {
    if |s| == 0 || !blank(s[|s| - 1]) then |s| else TrailingStart(s[..|s| - 1], blank)
  }

  /** What follows the end is blank, and the character before it is not. */
  lemma {:induction false} TrailingStartSpec(s: string, blank: char -> bool)
    ensures var n := TrailingStart(s, blank);
      (forall k :: n <= k < |s| ==> blank(s[k])) && (n > 0 ==> !blank(s[n - 1]))
  {
    if |s| > 0 && blank(s[|s| - 1]) {
      TrailingStartSpec(s[..|s| - 1], blank);
    }
  }

  /** `s` without its leading and trailing blank characters. */
  function Trim(s: string, blank: char -> bool): string {
    var i := LeadingBlanks(s, blank);
    s[i..][..TrailingStart(s[i..], blank)]
  }

  /** The trimmed string is the slice of `s` between the first and the last
      non-blank character; everything cut away is blank. */
  lemma TrimIsCore(s: string, blank: char -> bool)
    ensures var t := Trim(s, blank);
      exists i, j :: 0 <= i <= j <= |s| && t == s[i..j]
        && (forall k :: 0 <= k < i ==> blank(s[k]))
        && (forall k :: j <= k < |s| ==> blank(s[k]))
        && (|t| > 0 ==> !blank(t[0]) && !blank(t[|t| - 1]))
  {
    var i := LeadingBlanks(s, blank);
    var j := i + TrailingStart(s[i..], blank);
    LeadingBlanksSpec(s, blank);
    TrailingStartSpec(s[i..], blank);
    assert Trim(s, blank) == s[i..j];
  }

  /** Trimming yields the empty string exactly when every character is blank. */
  lemma TrimEmptyIffAllBlank(s: string, blank: char -> bool)
    ensures Trim(s, blank) == "" <==> forall k :: 0 <= k < |s| ==> blank(s[k])
  {
    var i := LeadingBlanks(s, blank);
    LeadingBlanksSpec(s, blank);
    TrailingStartSpec(s[i..], blank);
    if Trim(s, blank) != "" {
      TrimIsCore(s, blank);
    }
  }

  /** `t` neither starts nor ends with a blank character. */
  predicate Trimmed(t: string, blank: char -> bool) {
    |t| == 0 || (!blank(t[0]) && !blank(t[|t| - 1]))
  }

  /** The strings trimming leaves alone are exactly the trimmed ones, and
      every trimmed string is trimmed. */
  lemma TrimmedIsFixpoint(t: string, blank: char -> bool)
    ensures Trimmed(t, blank) <==> Trim(t, blank) == t
    ensures Trimmed(Trim(t, blank), blank)
  {
    TrimIsCore(t, blank);
    if Trimmed(t, blank) && |t| > 0 {
      assert LeadingBlanks(t, blank) == 0;
      assert TrailingStart(t, blank) == |t|;
      assert t[0..] == t;
    }
  }

  /** Trimming twice is trimming once. */
  lemma TrimIdempotent(s: string, blank: char -> bool)
    ensures Trim(Trim(s, blank), blank) == Trim(s, blank)
  {
    var t := Trim(s, blank);
    if |t| > 0 {
      assert !blank(t[0]) && !blank(t[|t| - 1]) by { TrimIsCore(s, blank); }
      assert LeadingBlanks(t, blank) == 0;
      assert TrailingStart(t, blank) == |t|;
      assert t[0..] == t;
    }
  }

  /** The sentences kept from a segmentation: each segment trimmed, the
      empty ones dropped, the rest in order. */
  function Sentences(segments: seq<string>, blank: char -> bool): (r: seq<string>)
    ensures |r| <= |segments|
    ensures forall k :: 0 <= k < |r| ==> |r[k]| > 0 && Trimmed(r[k], blank)
  {
    if |segments| == 0 then []
    else
      var rest := Sentences(segments[..|segments| - 1], blank);
      var t := Trim(segments[|segments| - 1], blank);
      TrimmedIsFixpoint(segments[|segments| - 1], blank);
      if t == "" then rest else rest + [t]
  }

  /** One more segment adds its trimmed text, unless that is empty. */
  lemma SentencesStep(segments: seq<string>, k: nat, blank: char -> bool)
    requires k < |segments|
    ensures var t := Trim(segments[k], blank);
      Sentences(segments[..k + 1], blank)
      == if t == "" then Sentences(segments[..k], blank) else Sentences(segments[..k], blank) + [t]
  {
    assert segments[..k + 1][..k] == segments[..k];
  }

  /** Filtering distributes over concatenation of segmentations: what a
      segment contributes does not depend on its neighbours. */
  lemma {:induction false} SentencesAppend(a: seq<string>, b: seq<string>, blank: char -> bool)
    ensures Sentences(a + b, blank) == Sentences(a, blank) + Sentences(b, blank)
    decreases |b|
  {
    if |b| == 0 {
      assert a + b == a;
    } else {
      var b' := b[..|b| - 1];
      assert (a + b)[..|a + b| - 1] == a + b';
      assert (a + b)[|a + b| - 1] == b[|b| - 1];
      SentencesAppend(a, b', blank);
    }
  }

  // ---------------------------------------------------------------------
  // Decimal digits

  predicate IsDigit(c: char) {
    '0' <= c <= '9'
  }

  /** The value of a string of decimal digits, most significant first. */
  function DigitsValue(s: string): (n: nat)
    requires forall k :: 0 <= k < |s| ==> IsDigit(s[k])
  {
    if |s| == 0 then 0
    else
      assert IsDigit(s[|s| - 1]);
      10 * DigitsValue(s[..|s| - 1]) + (s[|s| - 1] as int - '0' as int)
  }

  /** The shortest decimal representation of `n`. */
  function DecimalString(n: nat): (s: string)
    ensures |s| > 0
    ensures forall k :: 0 <= k < |s| ==> IsDigit(s[k])
  {
    var d := ['0' + (n % 10) as char];
    if n < 10 then d else DecimalString(n / 10) + d
  }

  /** Reading back a decimal representation gives the number. */
  lemma {:induction false} DecimalStringRoundTrip(n: nat)
    ensures DigitsValue(DecimalString(n)) == n
  {
    var s := DecimalString(n);
    if n >= 10 {
      DecimalStringRoundTrip(n / 10);
      assert s[..|s| - 1] == DecimalString(n / 10);
    }
  }
}
