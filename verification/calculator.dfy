/** The calculator panel: the voice-transcript normalizer, the expression
    buffer edited by the keypad, and the blank-input guard in front of the
    remote evaluation request. */
module CalculatorPanel {
  import opened Wrappers
  import opened Text

  // ---------------------------------------------------------------------------
  // Voice transcript normalizer
  // ---------------------------------------------------------------------------

  /** The spoken-word substitutions, applied in this order, each to every
      occurrence. */
  const VoiceSubstitutions: seq<Substitution> := [
    ("plus", "+"),
    ("minus", "-"),
    ("times", "*"),
    ("multiplied by", "*"),
    ("divided by", "/"),
    ("over", "/"),
    ("squared", "^2"),
    ("cubed", "^3"),
    ("pi", "π")
  ]

  /** Keywords are spelled with lower-case letters and spaces. */
  predicate IsWordChar(c: char) {
    'a' <= c <= 'z' || c == ' '
  }

  predicate AllWordChars(s: string) {
    forall k :: 0 <= k < |s| ==> IsWordChar(s[k])
  }

  predicate NoWordChars(s: string) {
    forall k :: 0 <= k < |s| ==> !IsWordChar(s[k])
  }

  /** Every keyword is non-empty and spelled in letters and spaces; every
      symbol written in its place is non-empty and has neither. */
  lemma VoiceTableShape()
    ensures WellFormed(VoiceSubstitutions)
    ensures forall i :: 0 <= i < |VoiceSubstitutions| ==>
              AllWordChars(VoiceSubstitutions[i].0) && NoWordChars(VoiceSubstitutions[i].1)
  {
  }

  lemma WordsAndSymbolsDisjoint(p: string, rep: string)
    requires AllWordChars(p) && NoWordChars(rep)
    ensures Disjoint(p, rep)
  {
  }

  /** The transcript lower-cased and rewritten by the substitution table, before
      whitespace is stripped. */
  function Substituted(transcript: string): string {
    VoiceTableShape();
    ReplaceEach(ToLower(transcript), VoiceSubstitutions)
  }

  /** The expression the voice handler stores: the transcript lower-cased,
      rewritten by the substitution table, then stripped of all whitespace. */
  function Normalize(transcript: string): (e: string)
    ensures NoSpace(e)
  {
    StripSpaces(Substituted(transcript))
  }

  /** Lower-casing comes first, so the case of a keyword does not matter. */
  lemma NormalizeIgnoresCase(transcript: string)
    ensures Normalize(transcript) == Normalize(ToLower(transcript))
  {
    ToLowerIdempotent(transcript);
  }

  /** After the substitutions no keyword is left: each rewrite removes every
      occurrence of its keyword, and the symbols written later cannot form an
      earlier keyword again. */
  lemma SubstitutedHasNoKeyword(transcript: string)
    ensures forall i :: 0 <= i < |VoiceSubstitutions| ==>
              !Occurs(Substituted(transcript), VoiceSubstitutions[i].0)
  {
    VoiceTableShape();
    forall i, j | 0 <= i < |VoiceSubstitutions| && 0 <= j < |VoiceSubstitutions|
      ensures Disjoint(VoiceSubstitutions[i].0, VoiceSubstitutions[j].1)
    {
      WordsAndSymbolsDisjoint(VoiceSubstitutions[i].0, VoiceSubstitutions[j].1);
    }
    ReplaceEachRemovesAll(ToLower(transcript), VoiceSubstitutions);
  }

  /** Lower-case text without whitespace and without any keyword is stored as
      it was spoken. */
  lemma NormalizePlainText(transcript: string)
    requires forall i :: 0 <= i < |transcript| ==> !IsUpper(transcript[i])
    requires NoSpace(transcript)
    requires forall i :: 0 <= i < |VoiceSubstitutions| ==> !Occurs(transcript, VoiceSubstitutions[i].0)
    ensures Normalize(transcript) == transcript
  {
    VoiceTableShape();
    LowerIsFixed(transcript);
    ReplaceEachAbsent(transcript, VoiceSubstitutions);
    StripNoSpace(transcript);
  }

  /** A keyword with a letter the text lacks leaves the text as it is. */
  lemma AbsentKeyword(s: string, p: string, rep: string, c: char)
    requires |p| > 0 && c in p && c !in s
    ensures ReplaceAll(s, p, rep) == s
  {
    CharAbsent(s, p, c);
    ReplaceAbsent(s, p, rep);
  }

  /** The letters the keywords are spelled with. */
  const KeywordLetters: set<char> :=
    {'a', 'b', 'c', 'd', 'e', 'i', 'l', 'm', 'n', 'o', 'p', 'q', 'r', 's', 't', 'u', 'v', 'y'}

  /** Operand text: no whitespace, no capitals, no letter used by a keyword
      (digits, symbols, and variables such as x). */
  predicate IsOperand(s: string) {
    forall k :: 0 <= k < |s| ==> !IsSpace(s[k]) && !IsUpper(s[k]) && s[k] !in KeywordLetters
  }

  lemma OperandsLackLetter(a: string, mid: string, b: string, c: char)
    requires IsOperand(a) && IsOperand(b) && c in KeywordLetters && c !in mid
    ensures c !in a + mid + b
  {
  }

  lemma Split3(a: string, m1: string, p: string, m2: string, b: string)
    ensures a + (m1 + p + m2) + b == (a + m1) + (p + (m2 + b))
  {
  }

  /** A keyword in the middle of a text whose other parts lack its first
      letter and one of its letters is rewritten once, in place. */
  lemma RewriteMiddle(a: string, b: string, m1: string, p: string, m2: string, rep: string, c: char)
    requires |p| > 0 && p[0] !in a && p[0] !in m1
    requires c in p && c !in m2 && c !in b
    ensures ReplaceAll(a + (m1 + p + m2) + b, p, rep) == a + (m1 + rep + m2) + b
  {
    Split3(a, m1, p, m2, b);
    Split3(a, m1, rep, m2, b);
    ReplaceSkip(a + m1, p + (m2 + b), p, rep);
    ReplaceFront(p, m2 + b, rep);
    AbsentKeyword(m2 + b, p, rep, c);
  }

  lemma PlusStep(a: string, b: string)
    requires IsOperand(a) && IsOperand(b)
    ensures ReplaceAll(a + " squared plus " + b, "plus", "+") == a + " squared + " + b
  {
    assert 'p' !in a && 'p' !in b;
    assert " squared plus " == " squared " + "plus" + " ";
    assert " squared + " == " squared " + "+" + " ";
    RewriteMiddle(a, b, " squared ", "plus", " ", "+", 'p');
  }

  lemma SquaredStep(a: string, b: string)
    requires IsOperand(a) && IsOperand(b)
    ensures ReplaceAll(a + " squared + " + b, "squared", "^2") == a + " ^2 + " + b
  {
    assert 's' !in a && 's' !in b;
    assert " squared + " == " " + "squared" + " + ";
    assert " ^2 + " == " " + "^2" + " + ";
    RewriteMiddle(a, b, " ", "squared", " + ", "^2", 's');
  }

  lemma StripSquarePlus()
    ensures StripSpaces(" ^2 + ") == "^2+"
  {
  }

  lemma StripStep(a: string, b: string)
    requires IsOperand(a) && IsOperand(b)
    ensures StripSpaces(a + " ^2 + " + b) == a + "^2+" + b
  {
    StripConcat(a + " ^2 + ", b);
    StripConcat(a, " ^2 + ");
    StripNoSpace(a);
    StripNoSpace(b);
    StripSquarePlus();
  }

  /** The chain for a transcript in which only "plus" and "squared" occur. */
  lemma NormalizeChain(t: string, s1: string, s2: string, e: string)
    requires ToLower(t) == t
    requires ReplaceAll(t, "plus", "+") == s1
    requires ReplaceAll(s1, "minus", "-") == s1
    requires ReplaceAll(s1, "times", "*") == s1
    requires ReplaceAll(s1, "multiplied by", "*") == s1
    requires ReplaceAll(s1, "divided by", "/") == s1
    requires ReplaceAll(s1, "over", "/") == s1
    requires ReplaceAll(s1, "squared", "^2") == s2
    requires ReplaceAll(s2, "cubed", "^3") == s2
    requires ReplaceAll(s2, "pi", "π") == s2
    requires StripSpaces(s2) == e
    ensures Normalize(t) == e
  {
    VoiceTableShape();
    var tbl := VoiceSubstitutions;
    assert ReplaceEach(t, tbl) == ReplaceEach(s1, tbl[1..]);
    assert ReplaceEach(s1, tbl[1..]) == ReplaceEach(s1, tbl[6..]);
    assert ReplaceEach(s1, tbl[6..]) == s2;
  }

  lemma LowerStep(a: string, b: string)
    requires IsOperand(a) && IsOperand(b)
    ensures ToLower(a + " squared plus " + b) == a + " squared plus " + b
  {
    LowerIsFixed(a + " squared plus " + b);
  }

  /** None of the keywords between "plus" and "squared" occurs once "plus" is
      rewritten. */
  lemma MiddleKeywordsAbsent(a: string, b: string)
    requires IsOperand(a) && IsOperand(b)
    ensures var s1 := a + " squared + " + b;
      && ReplaceAll(s1, "minus", "-") == s1
      && ReplaceAll(s1, "times", "*") == s1
      && ReplaceAll(s1, "multiplied by", "*") == s1
      && ReplaceAll(s1, "divided by", "/") == s1
      && ReplaceAll(s1, "over", "/") == s1
  {
    var s1 := a + " squared + " + b;
    OperandsLackLetter(a, " squared + ", b, 'm');
    OperandsLackLetter(a, " squared + ", b, 't');
    OperandsLackLetter(a, " squared + ", b, 'v');
    OperandsLackLetter(a, " squared + ", b, 'o');
    KeywordsAbsent(s1, 'm', 't', 'v', 'o');
  }

  /** The letters are parameters pinned by the precondition rather than
      literals in the body: written as literals, each membership test over the
      literal keywords is evaluated character by character, which makes the
      proof far more expensive. */
  lemma KeywordsAbsent(s: string, m: char, t: char, v: char, o: char)
    requires m == 'm' && t == 't' && v == 'v' && o == 'o'
    requires m !in s && t !in s && v !in s && o !in s
    ensures ReplaceAll(s, "minus", "-") == s
    ensures ReplaceAll(s, "times", "*") == s
    ensures ReplaceAll(s, "multiplied by", "*") == s
    ensures ReplaceAll(s, "divided by", "/") == s
    ensures ReplaceAll(s, "over", "/") == s
  {
    AbsentKeyword(s, "minus", "-", m);
    AbsentKeyword(s, "multiplied by", "*", m);
    AbsentKeyword(s, "times", "*", t);
    AbsentKeyword(s, "divided by", "/", v);
    AbsentKeyword(s, "over", "/", o);
  }

  lemma LastKeywordsAbsent(a: string, b: string)
    requires IsOperand(a) && IsOperand(b)
    ensures var s2 := a + " ^2 + " + b;
      ReplaceAll(s2, "cubed", "^3") == s2 && ReplaceAll(s2, "pi", "π") == s2
  {
    var s2 := a + " ^2 + " + b;
    OperandsLackLetter(a, " ^2 + ", b, 'c');
    AbsentKeyword(s2, "cubed", "^3", 'c');
    OperandsLackLetter(a, " ^2 + ", b, 'p');
    AbsentKeyword(s2, "pi", "π", 'p');
  }

  /** Spoken "A squared plus B", for operands A and B, becomes `A^2+B`. */
  lemma NormalizeSquarePlus(a: string, b: string)
    requires IsOperand(a) && IsOperand(b)
    ensures Normalize(a + " squared plus " + b) == a + "^2+" + b
  {
    LowerStep(a, b);
    PlusStep(a, b);
    MiddleKeywordsAbsent(a, b);
    SquaredStep(a, b);
    LastKeywordsAbsent(a, b);
    StripStep(a, b);
    NormalizeChain(a + " squared plus " + b, a + " squared + " + b, a + " ^2 + " + b, a + "^2+" + b);
  }

  /** The spoken "x squared plus 1" becomes the expression `x^2+1`. */
  lemma NormalizeExample()
    ensures Normalize("x" + " squared plus " + "1") == "x" + "^2+" + "1"
  {
    NormalizeSquarePlus("x", "1");
  }

  lemma LoneKeyword()
    ensures Normalize("plus") == "+"
  {
    LowerIsFixed("plus");
    ReplaceFront("plus", "", "+");
    assert "plus" + "" == "plus";
    NormalizeChain("plus", "+", "+", "+");
  }

  lemma FoldPlus()
    ensures ToLower("PLUS") == "plus"
  {
  }

  /** Capitals are folded first, so a shouted keyword is rewritten as well. */
  lemma ShoutedKeyword()
    ensures Normalize("PLUS") == Normalize("plus") == "+"
  {
    FoldPlus();
    NormalizeIgnoresCase("PLUS");
    LoneKeyword();
  }

  // ---------------------------------------------------------------------------
  // Keypad
  // ---------------------------------------------------------------------------

  /** The 5-by-5 keypad, row by row. */
  const Keypad: seq<seq<string>> := [
    ["7", "8", "9", "/", "sin"],
    ["4", "5", "6", "*", "cos"],
    ["1", "2", "3", "-", "tan"],
    ["0", ".", "=", "+", "sqrt"],
    ["(", ")", "^", "π", "log"]
  ]

  /** What pressing a key does. */
  datatype KeyAction = Evaluate | Append(text: string)

  /** The "=" key asks for a calculation; every other key appends its label. */
  function ActionOf(btn: string): (a: KeyAction)
    ensures a == Evaluate <==> btn == "="
    ensures a.Append? ==> a.text == btn
  {
    if btn == "=" then Evaluate else Append(btn)
  }

  /** The keypad is a 5-by-5 grid whose only evaluating key sits in row 3,
      column 2. */
  lemma KeypadLayout()
    ensures |Keypad| == 5 && forall r :: 0 <= r < 5 ==> |Keypad[r]| == 5
    ensures forall r, c :: 0 <= r < 5 && 0 <= c < 5 ==>
              (ActionOf(Keypad[r][c]) == Evaluate <==> r == 3 && c == 2)
  {
  }

  // ---------------------------------------------------------------------------
  // Calculator state
  // ---------------------------------------------------------------------------

  datatype CalculationRequest = CalculationRequest(expression: string, language: string)

  datatype CalculationResponse =
    CalculationResponse(expression: string, result: real, success: bool, error: Option<string>)

  const ConnectError := "Failed to connect to calculator service"

  /** The response shown after a request: the service's own answer, or a
      failure record for the expression that was sent. */
  function ShownResponse(expression: string, reply: Reply<CalculationResponse>): (r: CalculationResponse)
    ensures reply.Delivered? ==> r == reply.body
    ensures reply.Failed? ==> r.expression == expression && r.result == 0.0
                              && !r.success && r.error == Some(ConnectError)
  {
    match reply
    case Delivered(body) => body
    case Failed => CalculationResponse(expression, 0.0, false, Some(ConnectError))
  }

  /** The calculator panel: the expression being edited, the last response
      shown, and the recognition language. */
  class Calculator {
    var expression: string
    var result: Option<CalculationResponse>
    var language: string

    constructor()
      ensures expression == "" && result == None && language == "en-US"
    {
      expression := "";
      result := None;
      language := "en-US";
    }

    /** A keypad label is appended to the expression. */
    method AddToExpression(value: string)
      modifies this
      ensures expression == old(expression) + value
      ensures expression[..|old(expression)|] == old(expression)
      ensures result == old(result) && language == old(language)
    {
      expression := expression + value;
    }

    /** Clearing empties the expression and hides the response. */
    method ClearExpression()
      modifies this
      ensures expression == "" && result == None
      ensures language == old(language)
    {
      expression := "";
      result := None;
    }

    /** Typing into the input field replaces the expression. */
    method OnInput(value: string)
      modifies this
      ensures expression == value
      ensures result == old(result) && language == old(language)
    {
      expression := value;
    }

    /** The language picker. */
    method SetLanguage(value: string)
      modifies this
      ensures language == value
      ensures expression == old(expression) && result == old(result)
    {
      language := value;
    }

    /** A recognised transcript replaces the expression with its normalized
        form. */
    method OnVoiceResult(transcript: string)
      modifies this
      ensures expression == Normalize(transcript) && NoSpace(expression)
      ensures result == old(result) && language == old(language)
    {
      expression := Normalize(transcript);
    }

    /** Sends the expression for evaluation unless it is empty or all
        whitespace; `reply` is what the service call produces. Returns the
        request sent, if any. */
    method HandleCalculate(reply: Reply<CalculationResponse>) returns (sent: Option<CalculationRequest>)
      modifies this
      ensures sent == None <==> AllSpace(old(expression))
      ensures sent == None ==> result == old(result)
      ensures sent != None ==> sent == Some(CalculationRequest(expression, language))
                               && result == Some(ShownResponse(expression, reply))
      ensures expression == old(expression) && language == old(language)
    {
      BlankIffAllSpace(expression);
      if IsBlank(expression) {
        return None;
      }
      sent := Some(CalculationRequest(expression, language));
      result := Some(ShownResponse(expression, reply));
    }

    /** A keypad press: "=" calculates, any other key appends its label. */
    method PressKey(btn: string, reply: Reply<CalculationResponse>) returns (sent: Option<CalculationRequest>)
      modifies this
      ensures btn == "=" ==> expression == old(expression)
                              && (sent == None <==> AllSpace(old(expression)))
      ensures btn == "=" && sent == None ==> result == old(result)
      ensures btn == "=" && sent != None ==>
                sent == Some(CalculationRequest(expression, language))
                && result == Some(ShownResponse(expression, reply))
      ensures btn != "=" ==> expression == old(expression) + btn
                              && sent == None && result == old(result)
      ensures language == old(language)
    {
      match ActionOf(btn)
      case Evaluate =>
        sent := HandleCalculate(reply);
      case Append(text) =>
        AddToExpression(text);
        sent := None;
    }

    /** Enter in the input field calculates; other keys do nothing here. */
    method OnKeyPress(key: string, reply: Reply<CalculationResponse>) returns (sent: Option<CalculationRequest>)
      modifies this
      ensures key != "Enter" ==> sent == None && expression == old(expression) && result == old(result)
      ensures key == "Enter" ==> (sent == None <==> AllSpace(old(expression)))
      ensures key == "Enter" && sent == None ==> result == old(result)
      ensures key == "Enter" && sent != None ==>
                sent == Some(CalculationRequest(expression, language))
                && result == Some(ShownResponse(expression, reply))
      ensures expression == old(expression) && language == old(language)
    {
      if key == "Enter" {
        sent := HandleCalculate(reply);
      } else {
        sent := None;
      }
    }
  }
}
