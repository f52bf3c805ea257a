/** The tolerant parser of the analysis edge function
    (supabase/functions/analyze-video/index.ts, lines 107-128): pick a JSON
    candidate out of the model's reply, hand it to `JSON.parse`, and when that
    fails fall back to a keyword scan of the reply.

    `JSON.parse` is not modelled: it is the parameter `parse`, a partial
    function that yields `None` where the real one throws. */
module ResponseParser {
  import opened Wrappers
  import opened Text

  const FenceOpen: string := "```json"
  const Fence: string := "```"
  const FallbackSummary: string := "Analysis completed with parsing limitations."
  const DefaultConfidence: nat := 50

  // ---------------------------------------------------------------------
  // /```json\s*([\s\S]*?)\s*```/
  // ---------------------------------------------------------------------

  /** The fenced-block pattern matches starting at `i`: an opening
      "```json" at `i`, and a closing "```" somewhere at or after the end of
      the whitespace that follows the opener. */
  ghost predicate FenceMatchAt(s: string, i: nat) {
    OccursAt(s, FenceOpen, i)
    && exists q: nat :: SkipSpace(s, i + |FenceOpen|) <= q && OccursAt(s, Fence, q)
  }

  /** Positions of one match of the fenced-block pattern:
      `s[open..close + 3]` is the whole match and `s[innerStart..innerEnd]`
      is capture group 1. */
  datatype FenceMatch = FenceMatch(open: nat, innerStart: nat, innerEnd: nat, close: nat)

  /** `m` is the match the regular expression engine reports: the leftmost
      start, the opener's whitespace consumed greedily, the lazy group
      stopping at the first closing fence, and the whitespace before that
      fence left out of the group. */
  ghost predicate IsFirstFence(s: string, m: FenceMatch) {
    && FenceMatchAt(s, m.open)
    && (forall i: nat :: i < m.open ==> !FenceMatchAt(s, i))
    && m.innerStart == SkipSpace(s, m.open + |FenceOpen|)
    && m.innerStart <= m.innerEnd <= m.close
    && OccursAt(s, Fence, m.close)
    && (forall q: nat :: m.innerStart <= q < m.close ==> !OccursAt(s, Fence, q))
    && (forall j :: m.innerEnd <= j < m.close ==> IsSpace(s[j]))
    && (m.innerEnd == m.innerStart || !IsSpace(s[m.innerEnd - 1]))
  }

  /** Every way the pattern's pieces can be laid out from `i` (opener,
      whitespace up to `b`, any text up to `e`, whitespace up to `w`, closing
      fence at `w`) is covered by `FenceMatchAt`; conversely a
      `FenceMatchAt` witness `q` is such a layout with `b` the end of the
      opener's whitespace and `e == w == q`. */
  lemma FencePatternCovered(s: string, i: nat, b: nat, e: nat, w: nat)
    requires OccursAt(s, FenceOpen, i)
    requires i + |FenceOpen| <= b <= e <= w && OccursAt(s, Fence, w)
    requires forall j :: i + |FenceOpen| <= j < b ==> IsSpace(s[j])
    requires forall j :: e <= j < w ==> IsSpace(s[j])
    ensures FenceMatchAt(s, i)
  {
    assert s[w] == s[w..w + |Fence|][0];
    assert !IsSpace(s[w]);
    assert SkipSpace(s, i + |FenceOpen|) <= w;
  }

  /** An opener occurrence also contains a closing fence at its own start. */
  lemma OpenerIsFence(s: string, i: nat)
    requires OccursAt(s, FenceOpen, i)
    ensures OccursAt(s, Fence, i)
  {
    assert s[i..i + 3] == s[i..i + 7][..3];
  }

  /** A second opener after the first one cannot start inside the first
      opener or inside the whitespace that follows it. */
  lemma LaterOpenerAfterSpace(s: string, i: nat, i': nat)
    requires OccursAt(s, FenceOpen, i) && OccursAt(s, FenceOpen, i') && i < i'
    ensures SkipSpace(s, i + |FenceOpen|) <= i'
  {
    var w := s[i..i + 7];
    var w' := s[i'..i' + 7];
    assert w[0] == '`' && w[3] == 'j' && w[4] == 's' && w[5] == 'o' && w[6] == 'n';
    assert w'[0] == '`' && w'[3] == 'j';
  }

  /** No opener is followed by a closing fence: then nothing matches. */
  lemma NoFenceAfterFirstOpener(s: string, i: nat)
    requires OccursAt(s, FenceOpen, i)
    requires forall j: nat :: j < i ==> !OccursAt(s, FenceOpen, j)
    requires forall q: nat :: SkipSpace(s, i + |FenceOpen|) <= q ==> !OccursAt(s, Fence, q)
    ensures forall i': nat :: !FenceMatchAt(s, i')
  {
    forall i': nat | OccursAt(s, FenceOpen, i')
      ensures !FenceMatchAt(s, i')
    {
      if i < i' {
        LaterOpenerAfterSpace(s, i, i');
        OpenerIsFence(s, i');
      }
    }
  }

  /** The first opener followed by the first closing fence is the match. */
  lemma FirstOpenerMatches(s: string, i: nat, q: nat)
    requires OccursAt(s, FenceOpen, i)
    requires forall j: nat :: j < i ==> !OccursAt(s, FenceOpen, j)
    requires SkipSpace(s, i + |FenceOpen|) <= q && OccursAt(s, Fence, q)
    requires forall j: nat :: SkipSpace(s, i + |FenceOpen|) <= j < q ==> !OccursAt(s, Fence, j)
    ensures IsFirstFence(s, FenceMatch(i, SkipSpace(s, i + |FenceOpen|), SpaceRunStart(s, SkipSpace(s, i + |FenceOpen|), q), q))
  {
    assert FenceMatchAt(s, i);
  }

  /** The positions of a match lie in order inside `s`, the capture after
      the opener and before the closing fence. */
  predicate WellPlaced(s: string, m: FenceMatch) {
    m.open + |FenceOpen| <= m.innerStart <= m.innerEnd <= m.close
    && m.close + |Fence| <= |s|
  }

  /** Runs the fenced-block pattern over `s`: the first opener, then the
      first closing fence after the whitespace that follows it. */
  function FindFence(s: string): (r: Option<FenceMatch>)
    ensures r.Some? ==> WellPlaced(s, r.value)
    ensures r.Some? ==> OccursAt(s, FenceOpen, r.value.open) && OccursAt(s, Fence, r.value.close)
  {
    match FindFrom(s, FenceOpen, 0)
    case None => None
    case Some(i) =>
      var k := SkipSpace(s, i + |FenceOpen|);
      match FindFrom(s, Fence, k)
      case None => None
      case Some(q) => Some(FenceMatch(i, k, SpaceRunStart(s, k, q), q))
  }

  /** `FindFence` finds a match exactly when the pattern matches somewhere,
      and then it is the match the regular expression engine reports. */
  lemma FindFenceIsFirstMatch(s: string)
    ensures FindFence(s).None? <==> forall i: nat :: !FenceMatchAt(s, i)
    ensures FindFence(s).Some? ==> IsFirstFence(s, FindFence(s).value)
  {
    match FindFrom(s, FenceOpen, 0)
    case None =>
    case Some(i) =>
      var k := SkipSpace(s, i + |FenceOpen|);
      match FindFrom(s, Fence, k)
      case None =>
        NoFenceAfterFirstOpener(s, i);
      case Some(q) =>
        FirstOpenerMatches(s, i, q);
  }

  // ---------------------------------------------------------------------
  // /\{[\s\S]*\}/
  // ---------------------------------------------------------------------

  /** The leftmost index of `c` in `s` at or after `from`. */
  function IndexOfChar(s: string, c: char, from: nat): (r: Option<nat>)
    ensures r.Some? ==> from <= r.value < |s| && s[r.value] == c
    ensures r.Some? ==> forall j :: from <= j < r.value ==> s[j] != c
    ensures r.None? ==> forall j :: from <= j < |s| ==> s[j] != c
    decreases |s| - from
  {
    if |s| <= from then None
    else if s[from] == c then Some(from)
    else IndexOfChar(s, c, from + 1)
  }

  /** The rightmost index of `c` in `s[..upto]`. */
  function LastIndexOfChar(s: string, c: char, upto: nat): (r: Option<nat>)
    requires upto <= |s|
    ensures r.Some? ==> r.value < upto && s[r.value] == c
    ensures r.Some? ==> forall j :: r.value < j < upto ==> s[j] != c
    ensures r.None? ==> forall j :: 0 <= j < upto ==> s[j] != c
  {
    if upto == 0 then None
    else if s[upto - 1] == c then Some(upto - 1)
    else LastIndexOfChar(s, c, upto - 1)
  }

  /** The greedy brace pattern: the span from the first '{' to the last '}',
      present exactly when some '{' comes before some '}'. */
  function FindBraces(s: string): (r: Option<(nat, nat)>)
    ensures r.None? <==> forall i, j :: 0 <= i < j < |s| ==> !(s[i] == '{' && s[j] == '}')
    ensures r.Some? ==> var (i, j) := r.value;
      && i < j < |s| && s[i] == '{' && s[j] == '}'
      && (forall k :: 0 <= k < i ==> s[k] != '{')
      && (forall k :: j < k < |s| ==> s[k] != '}')
  {
    match (IndexOfChar(s, '{', 0), LastIndexOfChar(s, '}', |s|))
    case (Some(i), Some(j)) => if i < j then Some((i, j)) else None
    case _ => None
  }

  // ---------------------------------------------------------------------
  // The JSON candidate
  // ---------------------------------------------------------------------

  /** An occurrence inside a slice is an occurrence in the whole. */
  lemma OccursInSlice(s: string, lo: nat, hi: nat, p: string, q: nat)
    requires lo <= hi <= |s| && OccursAt(s[lo..hi], p, q)
    ensures OccursAt(s, p, lo + q)
  {
    var a := s[lo + q..lo + q + |p|];
    var b := s[lo..hi][q..q + |p|];
    assert forall k :: 0 <= k < |a| ==> a[k] == b[k];
  }

  /** What `FindFence` reports about the capture: it starts and ends on
      non-whitespace and runs up to the first closing fence. */
  lemma FenceCapture(s: string, m: FenceMatch)
    requires FindFence(s) == Some(m) && m.innerStart < m.innerEnd
    ensures !IsSpace(s[m.innerStart]) && !IsSpace(s[m.innerEnd - 1])
    ensures forall q: nat :: m.innerStart <= q < m.close ==> !OccursAt(s, Fence, q)
  {
    FindFenceIsFirstMatch(s);
  }

  /** The inner text of a fenced match, when non-empty, is trimmed and
      holds no fence. */
  lemma FencedInnerTrimmed(s: string, m: FenceMatch)
    requires WellPlaced(s, m) && m.innerStart < m.innerEnd
    requires !IsSpace(s[m.innerStart]) && !IsSpace(s[m.innerEnd - 1])
    requires forall q: nat :: m.innerStart <= q < m.close ==> !OccursAt(s, Fence, q)
    ensures var c := s[m.innerStart..m.innerEnd];
      && !IsSpace(c[0]) && !IsSpace(c[|c| - 1]) && !Occurs(c, Fence)
  {
    var c := s[m.innerStart..m.innerEnd];
    if Occurs(c, Fence) {
      var q: nat :| OccursAt(c, Fence, q);
      OccursInSlice(s, m.innerStart, m.innerEnd, Fence, q);
      assert false;
    }
  }

  /** `jsonMatch ? (jsonMatch[1] || jsonMatch[0]) : content`: the fenced
      block's inner text when there is one and it is non-empty (an empty
      capture is falsy, so the whole fenced match is used), else the brace
      span, else the whole content. The candidate is always a piece of the
      content; a fenced candidate neither starts nor ends with whitespace
      and holds no fence of its own; a brace candidate is delimited by
      braces. */
  function JsonCandidate(s: string): string {
    match FindFence(s)
    case Some(m) =>
      if m.innerStart < m.innerEnd then s[m.innerStart..m.innerEnd]
      else s[m.open..m.close + |Fence|]
    case None =>
      match FindBraces(s)
      case Some((i, j)) => s[i..j + 1]
      case None => s
  }

  lemma SliceOccurs(s: string, i: nat, j: nat)
    requires i <= j <= |s|
    ensures Occurs(s, s[i..j])
  {
    assert OccursAt(s, s[i..j], i);
  }

  /** When the fenced search succeeds, the candidate is the captured inner
      text, or the whole fenced match when that text is empty. */
  lemma FenceBranch(s: string)
    requires FindFence(s).Some?
    ensures var m := FindFence(s).value;
      JsonCandidate(s) == (if m.innerStart < m.innerEnd then s[m.innerStart..m.innerEnd]
                           else s[m.open..m.close + |Fence|])
  {
  }

  /** Whenever the fenced pattern matches anywhere, the candidate is taken
      from its leftmost, lazily closed match: the inner text, or the whole
      match when that text is empty. */
  lemma FencedCandidate(s: string)
    requires exists i: nat :: FenceMatchAt(s, i)
    ensures exists m ::
      && IsFirstFence(s, m)
      && JsonCandidate(s) == (if m.innerStart < m.innerEnd then s[m.innerStart..m.innerEnd]
                              else s[m.open..m.close + |Fence|])
  {
    FindFenceIsFirstMatch(s);
    var m := FindFence(s).value;
    FenceBranch(s);
    assert IsFirstFence(s, m);
  }

  /** A non-empty fenced candidate neither starts nor ends with whitespace
      and holds no fence of its own. */
  lemma FencedCandidateTrimmed(s: string)
    ensures FindFence(s).Some? && FindFence(s).value.innerStart < FindFence(s).value.innerEnd ==>
      var c := JsonCandidate(s);
      && 0 < |c| && !IsSpace(c[0]) && !IsSpace(c[|c| - 1]) && !Occurs(c, Fence)
  {
    if FindFence(s).Some? && FindFence(s).value.innerStart < FindFence(s).value.innerEnd {
      var m := FindFence(s).value;
      FenceBranch(s);
      FenceCapture(s, m);
      FencedInnerTrimmed(s, m);
    }
  }

  /** Without a fenced block, a '{' before a '}' makes the candidate the
      span from the first '{' to the last '}'. */
  lemma BraceCandidate(s: string)
    requires FindFence(s).None? && FindBraces(s).Some?
    ensures var c := JsonCandidate(s);
      && c == s[FindBraces(s).value.0..FindBraces(s).value.1 + 1]
      && 2 <= |c| && c[0] == '{' && c[|c| - 1] == '}'
  {
  }

  /** When the fenced pattern matches nowhere and no '{' comes before a
      '}', the whole reply is the candidate. */
  lemma WholeCandidate(s: string)
    requires forall i: nat :: !FenceMatchAt(s, i)
    requires forall i, j :: 0 <= i < j < |s| ==> !(s[i] == '{' && s[j] == '}')
    ensures JsonCandidate(s) == s
  {
    FindFenceIsFirstMatch(s);
    assert FindFence(s).None?;
    assert FindBraces(s).None?;
  }

  /** The candidate is always a piece of the reply. */
  lemma CandidateWithinContent(s: string)
    ensures Occurs(s, JsonCandidate(s))
  {
    if FindFence(s).Some? {
      var m := FindFence(s).value;
      FenceBranch(s);
      if m.innerStart < m.innerEnd {
        SliceOccurs(s, m.innerStart, m.innerEnd);
      } else {
        SliceOccurs(s, m.open, m.close + |Fence|);
      }
    } else if FindBraces(s).Some? {
      BraceCandidate(s);
      SliceOccurs(s, FindBraces(s).value.0, FindBraces(s).value.1 + 1);
    } else {
      assert JsonCandidate(s) == s;
      SliceOccurs(s, 0, |s|);
      assert s[0..|s|] == s;
    }
  }

  // ---------------------------------------------------------------------
  // Heuristic fallback
  // ---------------------------------------------------------------------

  const AuthenticWord: string := "authentic"
  const NegatedWord: string := "not authentic"

  /** `includes("authentic") && !includes("not authentic")` on the
      lower-cased reply. */
  function HeuristicVerdict(content: string): (b: bool)
    ensures b <==> (Occurs(ToLower(content), AuthenticWord)
                    && !Occurs(ToLower(content), NegatedWord))
  {
    var lower := ToLower(content);
    Contains(lower, AuthenticWord) && !Contains(lower, NegatedWord)
  }

  /** /(\d{1,3})%/ matches starting at `i`: the digit run there is one to
      three digits long and a '%' follows it. A longer run cannot match at
      `i`, since after three digits the next character is a digit, not '%'. */
  ghost predicate PercentAt(s: string, i: nat) {
    i < |s| && var r := DigitRun(s, i); 1 <= r <= 3 && i + r < |s| && s[i + r] == '%'
  }

  /** `PercentAt` is the pattern read directly: one to three digits from
      `i` up to some `e`, and a '%' at `e`. */
  lemma PercentAtIsPattern(s: string, i: nat)
    ensures PercentAt(s, i) <==>
      exists e :: i < e <= i + 3 && e < |s| && (forall j :: i <= j < e ==> IsDigit(s[j])) && s[e] == '%'
  {
    if PercentAt(s, i) {
      var e := i + DigitRun(s, i);
      assert i < e <= i + 3 && e < |s| && s[e] == '%';
    }
    if e :| i < e <= i + 3 && e < |s| && (forall j :: i <= j < e ==> IsDigit(s[j])) && s[e] == '%' {
      var r := DigitRun(s, i);
      assert i + r == e;
    }
  }

  /** The leftmost start of a percentage match at or after `from`. */
  function FindPercent(s: string, from: nat): (r: Option<nat>)
    ensures r.Some? ==> from <= r.value && PercentAt(s, r.value)
    ensures r.Some? ==> forall j: nat :: from <= j < r.value ==> !PercentAt(s, j)
    ensures r.None? ==> forall j: nat :: from <= j ==> !PercentAt(s, j)
    decreases |s| - from
  {
    if |s| <= from then None
    else
      var run := DigitRun(s, from);
      if 1 <= run <= 3 && from + run < |s| && s[from + run] == '%' then Some(from)
      else FindPercent(s, from + 1)
  }

  /** The digits of the match starting at `i`. */
  function PercentDigits(s: string, i: nat): (ds: string)
    requires i <= |s|
    ensures forall k :: 0 <= k < |ds| ==> IsDigit(ds[k])
  {
    s[i..i + DigitRun(s, i)]
  }

  /** `confidenceMatch ? parseInt(confidenceMatch[1]) : 50`. The value is
      taken as written: three digits allow up to 999. */
  function HeuristicConfidence(content: string): (c: nat)
    ensures c <= 999
    ensures (forall i: nat :: !PercentAt(content, i)) ==> c == DefaultConfidence
    ensures forall i: nat ::
      PercentAt(content, i) && (forall j: nat :: j < i ==> !PercentAt(content, j))
      ==> c == DecimalValue(PercentDigits(content, i))
  {
    match FindPercent(content, 0)
    case None => DefaultConfidence
    case Some(i) =>
      var ds := PercentDigits(content, i);
      assert Pow10(|ds|) <= 1000 by {
        assert |ds| <= 3;
        assert Pow10(3) == 1000;
        if |ds| == 2 { assert Pow10(2) == 100; }
        else if |ds| == 1 { assert Pow10(1) == 10; }
      }
      assert forall i': nat :: PercentAt(content, i') && (forall j: nat :: j < i' ==> !PercentAt(content, j)) ==> i' == i;
      DecimalValue(ds)
  }

  // ---------------------------------------------------------------------
  // The two-stage parse
  // ---------------------------------------------------------------------

  /** What the edge function answers with on success: the parsed JSON
      value, adopted as it is, or the object built by the fallback (whose
      `analysis` is null). */
  datatype Payload<J> =
    | Structured(json: J)
    | Heuristic(isAuthentic: bool, confidence: nat, summary: string)

  /** Lines 111-128: try `parse` on the candidate; on failure scan the
      whole reply. */
  function Normalize<J>(content: string, parse: string -> Option<J>): (p: Payload<J>)
    ensures p.Structured? <==> parse(JsonCandidate(content)).Some?
    ensures p.Structured? ==> Some(p.json) == parse(JsonCandidate(content))
    ensures p.Heuristic? ==>
      && p.summary == FallbackSummary
      && (p.isAuthentic <==> (Occurs(ToLower(content), AuthenticWord)
                              && !Occurs(ToLower(content), NegatedWord)))
      && p.confidence <= 999
      && ((forall i: nat :: !PercentAt(content, i)) ==> p.confidence == DefaultConfidence)
      && (forall i: nat ::
            PercentAt(content, i) && (forall j: nat :: j < i ==> !PercentAt(content, j))
            ==> p.confidence == DecimalValue(PercentDigits(content, i)))
  {
    match parse(JsonCandidate(content))
    case Some(j) => Structured(j)
    case None => Heuristic(HeuristicVerdict(content), HeuristicConfidence(content), FallbackSummary)
  }

  // ---------------------------------------------------------------------
  // Fallback behaviour on particular replies
  // ---------------------------------------------------------------------

  /** Missing content is read as "": `JSON.parse("")` throws, so the
      fallback answers "not authentic" with the default confidence. */
  lemma EmptyContentFallback<J>(parse: string -> Option<J>)
    requires parse("").None?
    ensures Normalize("", parse) == Heuristic(false, DefaultConfidence, FallbackSummary)
  {
  }

  /** The percentage pattern takes the leftmost start at which it matches:
      in "1234%" no match starts at the '1' (four digits), so the match is
      "234%". */
  lemma LeftmostPercentMatch()
    ensures HeuristicConfidence("1234%") == 234
  {
    var s := "1234%";
    assert DigitRun(s, 1) == 3;
    assert FindPercent(s, 0) == Some(1);
    assert PercentDigits(s, 1) == "234";
    assert DecimalValue("2") == 2;
    assert DecimalValue("23") == 23;
    assert DecimalValue("234") == 234;
  }

  /** The fallback confidence is not clamped to 100. */
  lemma FallbackConfidenceUnclamped()
    ensures HeuristicConfidence("999%") == 999
  {
    var s := "999%";
    assert FindPercent(s, 0) == Some(0);
    assert PercentDigits(s, 0) == "999";
    assert DecimalValue("9") == 9;
    assert DecimalValue("99") == 99;
    assert DecimalValue("999") == 999;
  }

  /** Upper-case negation is caught after lower-casing. */
  lemma NegationCaseInsensitive()
    ensures !HeuristicVerdict("Not authentic")
  {
    assert OccursAt(ToLower("Not authentic"), NegatedWord, 0);
  }

  /** Only the exact phrase "not authentic" negates: "inauthentic" contains
      "authentic" and so reads as an authentic verdict. */
  lemma InauthenticReadsAuthentic()
    ensures HeuristicVerdict("inauthentic")
  {
    assert OccursAt(ToLower("inauthentic"), AuthenticWord, 2);
  }
}
