/** The rule-based inference engine: an ordered chain of keyword tests over
    the trimmed, upper-cased sentence; the first rule that matches gives a
    fixed canonical sentence, and when none matches the input is returned
    unchanged. Keyword tests are substring tests (`includes`), not word
    tests: "I" matches any letter I and "GO" matches inside "GOOD". */
module Inference {
  import opened Wrappers
  import opened JsText

  /** Every sentence a rule can give. */
  const CANONICAL: set<string> := {
    "Thank you", "I am sorry", "How are you?", "Are you okay now?", "I am okay",
    "Hope you are okay?", "My name is", "What is your name?", "I need water",
    "Do you need water?", "I want food", "Do you want food?", "I need help",
    "Do you want me to help?", "How can I help you?", "Please help me",
    "What do you want?", "I want to go now", "Do you want to go now?",
    "I want to go", "Do you want to go?", "Can you come now?", "Can you come?",
    "Please come here", "Should I wait now?", "Please wait"
  }

  /** A first-person marker: the letter I anywhere, or ME. */
  predicate HasI(text: string) {
    Contains(text, "I") || Contains(text, "ME")
  }

  predicate HasYou(text: string) {
    Contains(text, "YOU")
  }

  /** The rule chain on an already trimmed and upper-cased text, in source
      order; None when no rule matches. */
  function Rule(text: string): Option<string> {
    var hasI := HasI(text);
    var hasYou := HasYou(text);
    if Contains(text, "THANK") then Some("Thank you")
    else if Contains(text, "SORRY") then Some("I am sorry")
    else if Contains(text, "HOW") && hasYou then Some("How are you?")
    else if Contains(text, "OKAY") && hasYou then Some("Are you okay now?")
    else if Contains(text, "OKAY") && hasI then Some("I am okay")
    else if Contains(text, "HOPE") && hasYou then Some("Hope you are okay?")
    else if Contains(text, "NAME") then
      (if hasI || Contains(text, "ME") then Some("My name is") else Some("What is your name?"))
    else if Contains(text, "WATER") then
      (if hasI then Some("I need water")
       else if hasYou then Some("Do you need water?")
       else Some("I need water"))
    else if Contains(text, "FOOD") then
      (if hasI then Some("I want food")
       else if hasYou then Some("Do you want food?")
       else Some("Do you want food?"))
    else if Contains(text, "HELP") then
      (if hasI then Some("I need help")
       else if hasYou && Contains(text, "ME") then Some("Do you want me to help?")
       else if hasYou then Some("How can I help you?")
       else Some("Please help me"))
    else if Contains(text, "WHAT") && Contains(text, "WANT") then Some("What do you want?")
    else if Contains(text, "GO") then
      (if hasI && Contains(text, "NOW") then Some("I want to go now")
       else if hasYou && Contains(text, "NOW") then Some("Do you want to go now?")
       else if hasI then Some("I want to go")
       else Some("Do you want to go?"))
    else if Contains(text, "COME") then
      (if hasYou && Contains(text, "NOW") then Some("Can you come now?")
       else if hasYou then Some("Can you come?")
       else Some("Please come here"))
    else if Contains(text, "WAIT") then
      (if Contains(text, "NOW") then Some("Should I wait now?") else Some("Please wait"))
    else None
  }

  /** `inferSentence`: the canonical sentence of the first matching rule, or
      the raw input itself (not trimmed, not upper-cased) when none matches. */
  function InferSentence(raw: string): string {
    match Rule(Upper(Trim(raw)))
    case Some(s) => s
    case None => raw
  }

  /** The result is either one of the canonical sentences or, when no rule
      matches, the raw input itself. */
  lemma InferredIsCanonicalOrInput(raw: string)
    ensures var r := InferSentence(raw);
      && (Rule(Upper(Trim(raw))).Some? ==> r in CANONICAL)
      && (Rule(Upper(Trim(raw))).None? ==> r == raw)
  {
  }

  /** Some rule matches exactly when one of the keyword conditions of the
      chain holds. */
  lemma RuleMatchesIff(text: string)
    ensures Rule(text).Some? <==>
      || Contains(text, "THANK") || Contains(text, "SORRY")
      || (Contains(text, "HOW") && HasYou(text))
      || (Contains(text, "OKAY") && (HasYou(text) || HasI(text)))
      || (Contains(text, "HOPE") && HasYou(text))
      || Contains(text, "NAME") || Contains(text, "WATER") || Contains(text, "FOOD")
      || Contains(text, "HELP") || (Contains(text, "WHAT") && Contains(text, "WANT"))
      || Contains(text, "GO") || Contains(text, "COME") || Contains(text, "WAIT")
  {
  }

  /** The THANK rule is first: any text holding THANK gives "Thank you". */
  lemma ThankWins(raw: string)
    requires Contains(Upper(Trim(raw)), "THANK")
    ensures InferSentence(raw) == "Thank you"
  {
  }

  /** WATER with no subject marker at all is read as first person. */
  lemma WaterWithoutSubject(raw: string)
    requires var t := Upper(Trim(raw));
      && Contains(t, "WATER") && !Contains(t, "THANK") && !Contains(t, "SORRY")
      && !Contains(t, "NAME") && !HasI(t) && !HasYou(t)
    ensures InferSentence(raw) == "I need water"
  {
  }

  /** HELP with ME is always "I need help": ME already makes the first-person
      marker true, whatever else the text holds. */
  lemma HelpWithMe(raw: string)
    requires var t := Upper(Trim(raw));
      && Contains(t, "HELP") && Contains(t, "ME")
      && !Contains(t, "THANK") && !Contains(t, "SORRY") && !Contains(t, "NAME")
      && !Contains(t, "WATER") && !Contains(t, "FOOD") && !Contains(t, "OKAY")
      && !(Contains(t, "HOW") && HasYou(t)) && !(Contains(t, "HOPE") && HasYou(t))
    ensures InferSentence(raw) == "I need help"
  {
  }

  /** The "Do you want me to help?" branch can never be taken: reaching it
      needs ME without the first-person marker, which ME itself sets. */
  lemma HelpMeBranchUnreachable(text: string)
    ensures Rule(text) != Some("Do you want me to help?")
  {
  }

  /** NAME holds ME as a substring, so every NAME text has the first-person
      marker. */
  lemma NameHasMe(text: string)
    requires Contains(text, "NAME")
    ensures Contains(text, "ME")
  {
    ContainsAt(text, "NAME");
    var i :| OccursAt(text, "NAME", i);
    assert text[i + 2..i + 4] == text[i..i + 4][2..];
    PresentAt(text, "ME", i + 2);
  }

  /** Hence the "What is your name?" branch can never be taken either: a
      NAME text always gives "My name is". */
  lemma NameQuestionUnreachable(text: string)
    ensures Rule(text) != Some("What is your name?")
  {
    if Contains(text, "NAME") {
      NameHasMe(text);
    }
  }

  /** Worked examples of the chain on upper-case text, including its
      substring behaviour. */
  lemma WaterRule(t: string)
    requires t == "WATER"
    ensures Rule(t) == Some("I need water")
  {
    PresentAt(t, "WATER", 0);
    AbsentChar(t, "THANK", 1);
    AbsentChar(t, "SORRY", 0);
    AbsentChar(t, "HOW", 0);
    AbsentChar(t, "OKAY", 0);
    AbsentChar(t, "HOPE", 0);
    AbsentChar(t, "NAME", 0);
    AbsentChar(t, "I", 0);
    AbsentChar(t, "ME", 0);
    AbsentChar(t, "YOU", 0);
  }

  lemma UnknownNameRule(t: string)
    requires t == "DIVYA"
    ensures Rule(t) == None
  {
    AbsentChar(t, "THANK", 0);
    AbsentChar(t, "SORRY", 0);
    AbsentChar(t, "HOW", 0);
    AbsentChar(t, "OKAY", 1);
    AbsentChar(t, "HOPE", 0);
    AbsentChar(t, "NAME", 0);
    AbsentChar(t, "WATER", 0);
    AbsentChar(t, "FOOD", 0);
    AbsentChar(t, "HELP", 0);
    AbsentChar(t, "WHAT", 0);
    AbsentChar(t, "GO", 0);
    AbsentChar(t, "COME", 0);
    AbsentChar(t, "WAIT", 0);
  }

  /** "HELP YOU ME" takes the first HELP branch: ME makes the first-person
      marker true before the YOU-and-ME branch is looked at. */
  lemma HelpYouMeRule(t: string)
    requires t == "HELP YOU ME"
    ensures Rule(t) == Some("I need help")
  {
    PresentAt(t, "HELP", 0);
    PresentAt(t, "ME", 9);
    AbsentChar(t, "THANK", 0);
    AbsentChar(t, "SORRY", 0);
    AbsentChar(t, "HOW", 2);
    AbsentChar(t, "OKAY", 2);
    assert t[1..] == "ELP YOU ME";
    assert t[..4][1] == 'E';
    AbsentHead(t, "HOPE");
    AbsentChar(t, "NAME", 0);
    AbsentChar(t, "WATER", 0);
    AbsentChar(t, "FOOD", 0);
  }

  /** The first-person marker is a letter test: the I of "HI" sets it. */
  lemma LetterIInsideWordRule(t: string)
    requires t == "OKAY HI"
    ensures Rule(t) == Some("I am okay")
  {
    PresentAt(t, "OKAY", 0);
    PresentAt(t, "I", 6);
    AbsentChar(t, "THANK", 0);
    AbsentChar(t, "SORRY", 0);
    AbsentChar(t, "HOW", 2);
    AbsentChar(t, "YOU", 2);
  }

  /** GO is found inside GOOD. */
  lemma GoInsideWordRule(t: string)
    requires t == "GOOD"
    ensures Rule(t) == Some("Do you want to go?")
  {
    PresentAt(t, "GO", 0);
    AbsentChar(t, "THANK", 0);
    AbsentChar(t, "SORRY", 0);
    AbsentChar(t, "HOW", 0);
    AbsentChar(t, "OKAY", 1);
    AbsentChar(t, "HOPE", 0);
    AbsentChar(t, "NAME", 0);
    AbsentChar(t, "WATER", 0);
    AbsentChar(t, "FOOD", 0);
    AbsentChar(t, "HELP", 0);
    AbsentChar(t, "WHAT", 0);
    AbsentChar(t, "I", 0);
    AbsentChar(t, "ME", 1);
    AbsentChar(t, "YOU", 0);
  }

  /** A lone OKAY has no subject, and nothing after it matches either. */
  lemma OkayAloneRule(t: string)
    requires t == "OKAY"
    ensures Rule(t) == None
  {
    AbsentChar(t, "THANK", 0);
    AbsentChar(t, "SORRY", 0);
    AbsentChar(t, "HOW", 0);
    AbsentChar(t, "I", 0);
    AbsentChar(t, "ME", 0);
    AbsentChar(t, "YOU", 2);
    AbsentChar(t, "HOPE", 0);
    AbsentChar(t, "NAME", 0);
    AbsentChar(t, "WATER", 0);
    AbsentChar(t, "FOOD", 0);
    AbsentChar(t, "HELP", 0);
    AbsentChar(t, "WHAT", 0);
    AbsentChar(t, "GO", 0);
    AbsentChar(t, "COME", 0);
    AbsentChar(t, "WAIT", 0);
  }

  /** HELP with no subject asks for help. */
  lemma HelpAloneRule(t: string)
    requires t == "HELP"
    ensures Rule(t) == Some("Please help me")
  {
    PresentAt(t, "HELP", 0);
    AbsentChar(t, "THANK", 2);
    AbsentChar(t, "SORRY", 0);
    AbsentChar(t, "HOW", 1);
    AbsentChar(t, "I", 0);
    AbsentChar(t, "ME", 0);
    AbsentChar(t, "YOU", 0);
    AbsentChar(t, "OKAY", 0);
    AbsentChar(t, "HOPE", 1);
    AbsentChar(t, "NAME", 0);
    AbsentChar(t, "WATER", 0);
    AbsentChar(t, "FOOD", 0);
  }

  lemma ThankYouRule(t: string)
    requires t == "THANK YOU"
    ensures Rule(t) == Some("Thank you")
  {
    PresentAt(t, "THANK", 0);
  }

  /** The same examples through `inferSentence`: surrounding blanks are
      trimmed before matching, and unmatched input comes back unchanged. */
  lemma WaterExample(raw: string)
    requires raw == "WATER "
    ensures InferSentence(raw) == "I need water"
  {
    var t := "WATER";
    TrimTrailingSpace(t, ' ');
    assert t + [' '] == raw;
    UpperNoOp(t);
    WaterRule(t);
  }

  lemma UnknownNameExample(raw: string)
    requires raw == "DIVYA"
    ensures InferSentence(raw) == raw
  {
    TrimNoOp(raw);
    UpperNoOp(raw);
    UnknownNameRule(raw);
  }

  lemma HelpYouMeExample(raw: string)
    requires raw == "HELP YOU ME"
    ensures InferSentence(raw) == "I need help"
  {
    TrimNoOp(raw);
    UpperNoOp(raw);
    HelpYouMeRule(raw);
  }

  lemma OkayAloneExample(raw: string)
    requires raw == "OKAY"
    ensures InferSentence(raw) == raw
  {
    TrimNoOp(raw);
    UpperNoOp(raw);
    OkayAloneRule(raw);
  }

  lemma HelpAloneExample(raw: string)
    requires raw == "HELP"
    ensures InferSentence(raw) == "Please help me"
  {
    TrimNoOp(raw);
    UpperNoOp(raw);
    HelpAloneRule(raw);
  }

  lemma ThankYouExample(raw: string)
    requires raw == "THANK YOU"
    ensures InferSentence(raw) == "Thank you"
  {
    TrimNoOp(raw);
    UpperNoOp(raw);
    ThankYouRule(raw);
  }
}
