/**
 * The rule-text scanner and parser as it is written: it finds line breaks and the `##`
 * marker with `indexOf` and builds a `File` node holding `RuleDeclaration` nodes with
 * integer spans. `parse` looks for line breaks in the one-character string `"\n"` rather
 * than in the input, so the next line break is always the end of the input; a non-empty
 * input therefore gives exactly one rule that spans all of it.
 */
module Parser {
  import opened JsString

  const RuleDeclarationMarker: string := "##"
  const NegativeChainableActionStart: char := '-'
  const PositiveChainableActionStart: char := '+'
  const LineBreak: string := "\n"

  /** A span `[start, end)`; the bounds come from `indexOf` and may be -1 or out of range. */
  datatype Identifier = Identifier(start: int, end: int)

  datatype RuleDeclaration = RuleDeclaration(
    start: int,
    end: int,
    domain: Identifier,
    detectionSelector: Identifier)

  datatype File = File(start: int, end: int, body: seq<RuleDeclaration>)

  lemma LineBreakOccurrences(text: string)
    ensures forall k :: OccursAt(text, LineBreak, k) <==> 0 <= k < |text| && text[k] == '\n'
  {
    forall k {
      OccursAtChar(text, '\n', k);
    }
  }

  /** `getNextLineBreakOrEoF`: the first `'\n'` strictly after position `i`, or `eof` if there is none. */
  function GetNextLineBreakOrEoF(i: int, text: string, eof: int): (r: int)
    ensures (forall k :: 0 <= k < |text| && i < k ==> text[k] != '\n') ==> r == eof
    ensures forall k :: 0 <= k < |text| && i < k && text[k] == '\n' ==>
      0 <= r && i < r <= k && text[r] == '\n'
  {
    LineBreakOccurrences(text);
    var nextLineBreak := IndexOf(text, LineBreak, i + 1);
    if nextLineBreak < 0 then eof else nextLineBreak
  }

  /**
   * `isRuleDeclarationLine`: the position of the next `##` at or after `i` (-1 when there is
   * none) and whether it lies before `nextLineBreak`. A missing marker (-1) counts as found
   * whenever `nextLineBreak` is not negative.
   */
  function IsRuleDeclarationLine(i: int, text: string, nextLineBreak: int): (r: (bool, int))
    ensures r.1 == -1 <==>
      forall j :: ClampPosition(i, |text|) <= j ==> !OccursAt(text, RuleDeclarationMarker, j)
    ensures r.1 != -1 ==>
      ClampPosition(i, |text|) <= r.1 && OccursAt(text, RuleDeclarationMarker, r.1)
      && forall j :: ClampPosition(i, |text|) <= j < r.1 ==> !OccursAt(text, RuleDeclarationMarker, j)
    ensures r.1 == -1 ==> (r.0 <==> 0 <= nextLineBreak)
    ensures r.1 != -1 ==> (r.0 <==> r.1 < nextLineBreak)
  {
    var nextRuleDeclaration := IndexOf(text, RuleDeclarationMarker, i);
    (nextRuleDeclaration < nextLineBreak, nextRuleDeclaration)
  }

  /** `text[k]` is `-` or `+` (JavaScript gives `undefined` outside the string). */
  predicate StartsChain(text: string, k: int) {
    0 <= k < |text|
    && (text[k] == NegativeChainableActionStart || text[k] == PositiveChainableActionStart)
  }

  /**
   * `parseRuleDeclaration`. Its loop sets `end` to the first line break after `i` (not after
   * `end`), so when the character after that line break also starts a chain the loop never
   * ends; the precondition excludes exactly that case.
   */
  method ParseRuleDeclaration(i: int, text: string, nextRuleDeclaration: int, nextLineBreak: int, eof: int)
    returns (rule: RuleDeclaration)
    requires StartsChain(text, nextLineBreak + 1) ==>
      !StartsChain(text, GetNextLineBreakOrEoF(i, text, eof) + 1)
    ensures rule.start == i
    ensures rule.domain == Identifier(i, nextRuleDeclaration)
    ensures rule.detectionSelector == Identifier(nextRuleDeclaration + 2, nextLineBreak)
    ensures !StartsChain(text, rule.end + 1)
    ensures !StartsChain(text, nextLineBreak + 1) ==> rule.end == nextLineBreak
    ensures StartsChain(text, nextLineBreak + 1) ==> rule.end == GetNextLineBreakOrEoF(i, text, eof)
  {
    var end := nextLineBreak;
    ghost var again := GetNextLineBreakOrEoF(i, text, eof);

    while StartsChain(text, end + 1)
      invariant end == nextLineBreak || end == again
      invariant end == again ==> !StartsChain(text, end + 1)
      invariant !StartsChain(text, nextLineBreak + 1) ==> end == nextLineBreak
      decreases if end == again then 0 else 1
    {
      end := GetNextLineBreakOrEoF(i, text, eof);
    }

    rule := RuleDeclaration(
      start := i,
      end := end,
      domain := Identifier(i, nextRuleDeclaration),
      detectionSelector := Identifier(nextRuleDeclaration + 2, nextLineBreak));
  }

  /** The rule `parse` gives for any non-empty text: all of it, split at its first `##`. */
  function WholeTextRule(text: string): RuleDeclaration {
    var marker := IndexOf(text, RuleDeclarationMarker, 0);
    RuleDeclaration(0, |text|, Identifier(0, marker), Identifier(marker + 2, |text|))
  }

  /** `parse`: never fails; the root spans the whole text. */
  method Parse(text: string) returns (file: File)
    ensures file.start == 0 && file.end == |text|
    ensures |text| == 0 ==> file.body == []
    ensures |text| > 0 ==> file.body == [WholeTextRule(text)]
  {
    file := File(0, |text|, []);
    var i := 0;

    while i < file.end
      invariant file.start == 0 && file.end == |text|
      invariant i == 0 || (0 < |text| && i == |text| + 1)
      invariant i == 0 ==> file.body == []
      invariant i != 0 ==> file.body == [WholeTextRule(text)]
      decreases file.end + 1 - i
    {
      var nextLineBreak := GetNextLineBreakOrEoF(i, LineBreak, file.end);

      if i != nextLineBreak {
        var (found, nextRuleDeclaration) := IsRuleDeclarationLine(i, text, nextLineBreak);

        if found {
          var rule := ParseRuleDeclaration(i, text, nextRuleDeclaration, nextLineBreak, file.end);
          file := file.(body := file.body + [rule]);
          i := rule.end;
        }
      }
      i := i + 1;
    }
  }

  /** `parse` looks for line breaks in `"\n"` itself, so from any position it finds none. */
  lemma NextLineBreakIsAlwaysEof(i: int, eof: int)
    requires 0 <= i
    ensures GetNextLineBreakOrEoF(i, LineBreak, eof) == eof
  {
  }

  /**
   * Span fidelity when the text has a `##`: the rule slice is the whole text, the domain
   * slice is everything before the first `##` and the selector slice everything after it.
   */
  lemma WholeTextRuleSpans(text: string)
    requires exists k :: OccursAt(text, RuleDeclarationMarker, k)
    ensures var r := WholeTextRule(text);
      Slice(text, r.start, r.end) == text
      && Slice(text, r.domain.start, r.domain.end) + RuleDeclarationMarker
           + Slice(text, r.detectionSelector.start, r.detectionSelector.end) == text
      && forall j :: 0 <= j < r.domain.end ==> !OccursAt(text, RuleDeclarationMarker, j)
  {
    var p := IndexOf(text, RuleDeclarationMarker, 0);
    assert p != -1;
    assert text == text[..p] + RuleDeclarationMarker + text[p + 2..];
  }

  /**
   * Without a `##` the domain span is `[0, -1)` and the selector span `[1, |text|)`: sliced
   * the JavaScript way, the domain is the text minus its last character.
   */
  lemma WholeTextRuleWithoutMarker(text: string)
    requires |text| > 0
    requires forall k :: !OccursAt(text, RuleDeclarationMarker, k)
    ensures WholeTextRule(text).domain == Identifier(0, -1)
    ensures WholeTextRule(text).detectionSelector == Identifier(1, |text|)
    ensures Slice(text, 0, -1) == text[..|text| - 1]
    ensures Slice(text, 1, |text|) == text[1..]
  {
  }

  /** `domain.tld##test`: one rule over the whole input, domain `domain.tld`, selector `test`. */
  lemma DomainTldExample()
    ensures var text := "domain.tld##test";
      var r := WholeTextRule(text);
      Slice(text, r.start, r.end) == text
      && Slice(text, r.domain.start, r.domain.end) == "domain.tld"
      && Slice(text, r.detectionSelector.start, r.detectionSelector.end) == "test"
  {
    var text := "domain.tld##test";
    assert OccursAt(text, RuleDeclarationMarker, 10);
    var p := IndexOf(text, RuleDeclarationMarker, 0);
    assert p <= 10;
    assert text[p..p + 2][0] == text[p] == '#';
    assert text[..10] == "domain.tld";
    assert forall j :: 0 <= j < 10 ==> text[..10][j] != '#';
    assert p == 10;
  }

  /**
   * The `RuleDeclaration` unit test run through `Parse`: the root spans the input and its
   * one rule slices to the input, the domain `domain.tld` and the selector `test`.
   */
  method ParseDomainTldTest() returns (file: File)
    ensures file.start == 0 && file.end == |"domain.tld##test"|
    ensures |file.body| == 1
    ensures file.body[0] == RuleDeclaration(0, 16, Identifier(0, 10), Identifier(12, 16))
    ensures var text := "domain.tld##test";
      var rule := file.body[0];
      Slice(text, rule.start, rule.end) == text
      && Slice(text, rule.domain.start, rule.domain.end) == "domain.tld"
      && Slice(text, rule.detectionSelector.start, rule.detectionSelector.end) == "test"
  {
    file := Parse("domain.tld##test");
    DomainTldExample();
  }
}
