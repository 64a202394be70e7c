/** The two translation tables and the helpers that look them up, and the
    text the finalisation step displays and speaks for a finished sentence. */
module Translation {
  import opened Wrappers
  import opened JsText
  import opened Inference

  /** The value of `selectedLanguage`: one of the four codes of the language
      selector. */
  datatype Language = En | Hi | Te | Ta

  /** One table entry: the Hindi, Telugu and Tamil renderings. */
  datatype Trio = Trio(hi: string, te: string, ta: string)

  /** `entry[selectedLanguage]` for a language other than English. */
  function Pick(t: Trio, lang: Language): string
    requires lang != En
  {
    match lang
    case Hi => t.hi
    case Te => t.te
    case Ta => t.ta
  }

  /** `SENTENCE_TRANSLATIONS`, keyed by canonical sentence, in the order of
      its keys (the order `Object.keys` walks them). */
  const SENTENCE_TRANSLATIONS: seq<(string, Trio)> :=
    [
      ("Thank you", Trio("धन्यवाद", "ధన్యవాదాలు", "நன்றி")),
      ("I am sorry", Trio("मुझे माफ़ करें", "క్షమించండి", "மன்னிக்கவும்")),
      ("How are you?", Trio("आप कैसे हैं?", "మీరు ఎలా ఉన్నారు?", "நீங்கள் எப்படி இருக்கிறீர்கள்?")),
      ("Are you okay now?", Trio("क्या आप अभी ठीक हैं?", "మీరు ఇప్పుడు బాగున్నారా?", "நீங்கள் இப்போது நலமாக இருக்கிறீர்களா?")),
      ("I am okay", Trio("मैं ठीक हूँ", "నేను బాగున్నాను", "நான் நன்றாக இருக்கிறேன்")),
      ("My name is", Trio("मेरा नाम है", "నా పేరు", "என் பெயர்")),
      ("What is your name?", Trio("आपका नाम क्या है?", "మీ పేరు ఏమిటి?", "உங்கள் பெயர் என்ன?")),
      ("I need water", Trio("मुझे पानी चाहिए", "నాకు నీరు కావాలి", "எனக்கு தண்ணீர் வேண்டும்")),
      ("Do you need water?", Trio("क्या आपको पानी चाहिए?", "మీకు నీరు కావాలా?", "உங்களுக்கு தண்ணீர் வேண்டுமா?")),
      ("I want food", Trio("मुझे खाना चाहिए", "నాకు భోజనం కావాలి", "எனக்கு உணவு வேண்டும்")),
      ("Do you want food?", Trio("क्या आपको खाना चाहिए?", "మీకు భోజనం కావాలా?", "உங்களுக்கு உணவு வேண்டுமா?")),
      ("I need help", Trio("मुझे मदद चाहिए", "నాకు సహాయం కావాలి", "எனக்கு உதவி வேண்டும்")),
      ("How can I help you?", Trio("मैं आपकी कैसे मदद कर सकता हूँ?", "నేను మీకు ఎలా సహాయం చేయగలను?", "நான் உங்களுக்கு எப்படி உதவலாம்?")),
      ("Please wait", Trio("कृपया प्रतीक्षा करें", "దయచేసి వేచి ఉండండి", "தயவுசெய்து காத்திருங்கள்")),
      ("Please come here", Trio("कृपया यहाँ आइए", "దయచేసి ఇక్కడికి రండి", "தயவுசெய்து இங்கே வாருங்கள்")),
      ("I want to go", Trio("मैं जाना चाहता हूँ", "నేను వెళ్లాలనుకుంటున్నాను", "நான் போக விரும்புகிறேன்")),
      ("Do you want to go?", Trio("क्या आप जाना चाहते हैं?", "మీరు వెళ్లాలనుకుంటున్నారా?", "நீங்கள் போக விரும்புகிறீர்களா?"))
    ]

  /** `WORD_TRANSLATIONS`, keyed by upper-case word. The Tamil entry for STOP
      is copied as it stands, Telugu letters included. */
  const WORD_TRANSLATIONS: map<string, Trio> :=
    map[
      "HELP" := Trio("मदद", "సహాయం", "உதவி"),
      "WATER" := Trio("पानी", "నీరు", "தண்ணீர்"),
      "FOOD" := Trio("खाना", "భోజనం", "உணவு"),
      "PLEASE" := Trio("कृपया", "దయచేసి", "தயவுசெய்து"),
      "GO" := Trio("जाओ", "వెళ్ళు", "போ"),
      "COME" := Trio("आओ", "రండి", "வா"),
      "WAIT" := Trio("रुको", "ఆగండి", "காத்திரு"),
      "STOP" := Trio("रुको", "ఆపు", "நిల్లు"),
      "YES" := Trio("हाँ", "అవును", "ஆம்"),
      "NO" := Trio("नहीं", "కాదు", "இல்லை"),
      "WANT" := Trio("चाहिए", "కావాలి", "வேண்டும்"),
      "HOW" := Trio("कैसे", "ఎలా", "எப்படி"),
      "WHAT" := Trio("क्या", "ఏమి", "என்ன"),
      "NAME" := Trio("नाम", "పేరు", "பெயர்"),
      "ME" := Trio("मुझे", "నాకు", "எனக்கு"),
      "NOW" := Trio("अभी", "ఇప్పుడు", "இப்போது"),
      "HI" := Trio("नमस्ते", "హాయ్", "வணக்கம்"),
      "SORRY" := Trio("माफ़ करें", "క్షమించండి", "மன்னிக்கவும்"),
      "YOU" := Trio("आप", "మీరు", "நீங்கள்"),
      "HOPE" := Trio("आशा", "ఆశ", "நம்பிக்கை"),
      "OKAY" := Trio("ठीक है", "సరే", "சரி")
    ]

  /** How a table key is compared with the looked-up text: exactly, or after
      `toLowerCase` on both sides. */
  predicate KeyMatches(key: string, s: string, caseless: bool) {
    if caseless then Lower(key) == Lower(s) else key == s
  }

  /** The position of the first key of the table that matches s: the exact
      property lookup, or `Object.keys(...).find` with a lower-cased
      comparison. */
  function FindKey(table: seq<(string, Trio)>, s: string, caseless: bool): (r: Option<nat>)
    ensures r.Some? ==> r.value < |table| && KeyMatches(table[r.value].0, s, caseless)
    ensures r.Some? ==> forall j :: 0 <= j < r.value ==> !KeyMatches(table[j].0, s, caseless)
    ensures r.None? ==> forall j :: 0 <= j < |table| ==> !KeyMatches(table[j].0, s, caseless)
  {
    if table == [] then None
    else if KeyMatches(table[0].0, s, caseless) then Some(0)
    else match FindKey(table[1..], s, caseless)
      case None => None
      case Some(i) => Some(i + 1)
  }

  /** The lookup `translateSentence` performs, over a given table: identity
      for English; otherwise the entry of the exact key, else the entry of
      the first key equal to it ignoring case, else the sentence itself. */
  function TranslateIn(table: seq<(string, Trio)>, s: string, lang: Language): string {
    if lang == En then s
    else match FindKey(table, s, false)
      case Some(i) => Pick(table[i].1, lang)
      case None =>
        match FindKey(table, s, true)
        case Some(i) => Pick(table[i].1, lang)
        case None => s
  }

  /** `translateSentence`. Every value of the table is non-empty (see
      TranslationsNonEmpty), so the truthiness test on the chosen rendering
      always passes and is not repeated here. */
  function TranslateSentence(s: string, lang: Language): string {
    TranslateIn(SENTENCE_TRANSLATIONS, s, lang)
  }

  /** `translateWord`: identity for English; otherwise the entry of the
      upper-cased word, else the word itself. */
  function TranslateWord(w: string, lang: Language): string {
    if lang == En then w
    else if Upper(w) in WORD_TRANSLATIONS then Pick(WORD_TRANSLATIONS[Upper(w)], lang)
    else w
  }

  /** `.map(w => translateWord(w))`. */
  function TranslateWords(ws: seq<string>, lang: Language): (r: seq<string>)
    ensures |r| == |ws|
    ensures forall i :: 0 <= i < |ws| ==> r[i] == TranslateWord(ws[i], lang)
  {
    seq(|ws|, i requires 0 <= i < |ws| => TranslateWord(ws[i], lang))
  }

  /** The text the delayed callback of the finalisation handler shows and
      speaks, for the trimmed buffer `raw` and the language selected when the
      callback runs: the inferred sentence in English; its sentence
      translation when inference changed the text; otherwise the input
      translated word by word over `split(" ")`. */
  function Spoken(raw: string, lang: Language): string {
    var inferred := InferSentence(raw);
    if lang == En then inferred
    else if inferred != raw then TranslateSentence(inferred, lang)
    else Join(TranslateWords(SplitAt(inferred, ' '), lang), ' ')
  }

  /** Every value of both tables is non-empty. */
  lemma TranslationsNonEmpty()
    ensures forall i :: 0 <= i < |SENTENCE_TRANSLATIONS| ==>
      var t := SENTENCE_TRANSLATIONS[i].1; t.hi != "" && t.te != "" && t.ta != ""
    ensures forall k :: k in WORD_TRANSLATIONS ==>
      var t := WORD_TRANSLATIONS[k]; t.hi != "" && t.te != "" && t.ta != ""
  {
  }

  /** With English selected both translators are the identity. */
  lemma EnglishIsIdentity(s: string)
    ensures TranslateSentence(s, En) == s && TranslateWord(s, En) == s
  {
  }

  /** A translated sentence is either the sentence itself or the rendering of
      an entry whose key equals the sentence ignoring case. */
  lemma TranslateSound(table: seq<(string, Trio)>, s: string, lang: Language)
    requires lang != En
    ensures var r := TranslateIn(table, s, lang);
      || r == s
      || (exists i :: 0 <= i < |table| && Lower(table[i].0) == Lower(s) && r == Pick(table[i].1, lang))
  {
    match FindKey(table, s, false)
    case Some(i) =>
    case None =>
  }

  /** The exact key is tried first: a sentence equal to a key gets the
      rendering of the first entry with that key, even when an earlier key
      equals it ignoring case. */
  lemma TranslateExact(table: seq<(string, Trio)>, s: string, lang: Language, i: nat)
    requires lang != En && i < |table| && table[i].0 == s
    requires forall j :: 0 <= j < i ==> table[j].0 != s
    ensures TranslateIn(table, s, lang) == Pick(table[i].1, lang)
  {
    assert KeyMatches(table[i].0, s, false);
    var k := FindKey(table, s, false);
    assert k == Some(i);
  }

  /** When some key equals the sentence ignoring case, the result is the
      rendering of such an entry. */
  lemma TranslateComplete(table: seq<(string, Trio)>, s: string, lang: Language, k: nat)
    requires lang != En && k < |table| && Lower(table[k].0) == Lower(s)
    ensures exists i :: (0 <= i < |table| && Lower(table[i].0) == Lower(s)
      && TranslateIn(table, s, lang) == Pick(table[i].1, lang))
  {
    match FindKey(table, s, false)
    case Some(i) =>
    case None =>
      assert KeyMatches(table[k].0, s, true);
  }

  /** A sentence that no key equals, ignoring case, comes back unchanged. */
  lemma TranslateFallback(table: seq<(string, Trio)>, s: string, lang: Language)
    requires forall i :: 0 <= i < |table| ==> Lower(table[i].0) != Lower(s)
    ensures TranslateIn(table, s, lang) == s
  {
    if lang != En {
      match FindKey(table, s, false)
      case Some(i) =>
        assert false;
      case None =>
    }
  }

  /** A word is looked up by its upper case, so words that differ only in
      case translate alike when the table knows them. */
  lemma TranslateWordCaseless(a: string, b: string, lang: Language)
    requires lang != En && Upper(a) == Upper(b) && Upper(a) in WORD_TRANSLATIONS
    ensures TranslateWord(a, lang) == TranslateWord(b, lang) == Pick(WORD_TRANSLATIONS[Upper(a)], lang)
  {
  }

  /** A word the table does not know (a spelled name, a single letter) comes
      back unchanged. */
  lemma TranslateWordFallback(w: string, lang: Language)
    requires Upper(w) !in WORD_TRANSLATIONS
    ensures TranslateWord(w, lang) == w
  {
  }

  lemma ThankYouInHindi()
    ensures TranslateSentence("Thank you", Hi) == "धन्यवाद"
  {
    assert KeyMatches(SENTENCE_TRANSLATIONS[0].0, "Thank you", false);
  }

  /** Some canonical sentences have no entry: "Please help me" keeps its
      English text in every language, since no key has its length. */
  lemma PleaseHelpMeUntranslated(lang: Language)
    ensures TranslateSentence("Please help me", lang) == "Please help me"
  {
    var s := "Please help me";
    forall i | 0 <= i < |SENTENCE_TRANSLATIONS|
      ensures Lower(SENTENCE_TRANSLATIONS[i].0) != Lower(s)
    {
      assert |SENTENCE_TRANSLATIONS[i].0| != |s|;
    }
    TranslateFallback(SENTENCE_TRANSLATIONS, s, lang);
  }

  /** English output is the inferred sentence. */
  lemma SpokenEnglish(raw: string)
    ensures Spoken(raw, En) == InferSentence(raw)
  {
  }

  /** When inference changed the text, its sentence translation is spoken. */
  lemma SpokenInferred(raw: string, lang: Language)
    requires lang != En && InferSentence(raw) != raw
    ensures Spoken(raw, lang) == TranslateSentence(InferSentence(raw), lang)
  {
  }

  /** Word-by-word output has one translated token per space-separated
      token of the input, provided no translation itself holds a space. */
  lemma WordByWordTokens(raw: string, lang: Language)
    requires lang != En && InferSentence(raw) == raw
    requires forall i :: 0 <= i < |SplitAt(raw, ' ')| ==>
      ' ' !in TranslateWord(SplitAt(raw, ' ')[i], lang)
    ensures SplitAt(Spoken(raw, lang), ' ') == TranslateWords(SplitAt(raw, ' '), lang)
    ensures |SplitAt(Spoken(raw, lang), ' ')| == |SplitAt(raw, ' ')|
  {
    var ws := TranslateWords(SplitAt(raw, ' '), lang);
    SplitJoin(ws, ' ');
  }

  lemma OkayWordInHindi(w: string)
    requires w == "OKAY"
    ensures TranslateWord(w, Hi) == "ठीक है"
  {
    UpperNoOp(w);
  }

  lemma OkayHindiTokens(h: string)
    requires h == "ठीक है"
    ensures SplitAt(h, ' ') == ["ठीक", "है"]
  {
    SplitFirst("ठीक", ' ', "है");
    assert h == "ठीक" + [' '] + "है";
    SplitWhole("है", ' ');
  }

  /** The proviso matters: OKAY alone is not a sentence the rules know, and
      its Hindi rendering is two tokens. */
  lemma OkayInHindi(raw: string)
    requires raw == "OKAY"
    ensures Spoken(raw, Hi) == "ठीक है"
    ensures |SplitAt(raw, ' ')| == 1 && |SplitAt(Spoken(raw, Hi), ' ')| == 2
  {
    OkayAloneExample(raw);
    SplitWhole(raw, ' ');
    OkayWordInHindi(raw);
    assert TranslateWords([raw], Hi) == ["ठीक है"];
    OkayHindiTokens("ठीक है");
  }

  /** "THANK YOU" is inferred as "Thank you" and spoken from its entry. */
  lemma ThankYouSpokenInHindi()
    ensures Spoken("THANK YOU", Hi) == "धन्यवाद"
  {
    ThankYouExample("THANK YOU");
    ThankYouInHindi();
  }

  /** "HELP" alone is inferred as "Please help me", which has no entry and
      is therefore spoken in English whichever language is selected. */
  lemma HelpSpokenInEnglish(lang: Language)
    ensures Spoken("HELP", lang) == "Please help me"
  {
    HelpAloneExample("HELP");
    PleaseHelpMeUntranslated(lang);
  }
}
