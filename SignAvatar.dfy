/** The speech-to-sign side: the table from spoken words to animation clips,
    the filter that turns a recognised utterance into the words to sign, and
    the player that walks those words one clip at a time. Loading a clip and
    waiting for it to finish are asynchronous; each callback is an event
    carrying the chain position it belongs to. */
module SignAvatar {
  import opened Wrappers
  import opened JsText

  /** `SIGN_MAP`, entry for entry, in the groups its comments name:
      English, Hindi, Telugu and Tamil words (in Latin letters) to the clip
      that signs them. */
  /** The Greetings entries. */
  const GREETINGS: map<string, string> := map[
    "hello" := "/static/assets/Animations/hello.glb",
    "hi" := "/static/assets/Animations/hello.glb",
    "namaste" := "/static/assets/Animations/hello.glb",
    "namaskar" := "/static/assets/Animations/hello.glb",
    "namaskaram" := "/static/assets/Animations/hello.glb",
    "vanakkam" := "/static/assets/Animations/hello.glb"
  ]

  /** The Pronouns entries. */
  const PRONOUNS: map<string, string> := map[
    "i" := "/static/assets/Animations/I.glb",
    "me" := "/static/assets/Animations/me.glb",
    "you" := "/static/assets/Animations/you.glb",
    "main" := "/static/assets/Animations/I.glb",
    "mujhe" := "/static/assets/Animations/me.glb",
    "tum" := "/static/assets/Animations/you.glb",
    "aap" := "/static/assets/Animations/you.glb",
    "nenu" := "/static/assets/Animations/I.glb",
    "naaku" := "/static/assets/Animations/me.glb",
    "nuvvu" := "/static/assets/Animations/you.glb",
    "naan" := "/static/assets/Animations/I.glb",
    "ennai" := "/static/assets/Animations/me.glb",
    "nee" := "/static/assets/Animations/you.glb"
  ]

  /** The Actions entries. */
  const ACTIONS: map<string, string> := map[
    "help" := "/static/assets/Animations/help.glb",
    "madad" := "/static/assets/Animations/help.glb",
    "sahayam" := "/static/assets/Animations/help.glb",
    "udhavi" := "/static/assets/Animations/help.glb",
    "eat" := "/static/assets/Animations/eat.glb",
    "food" := "/static/assets/Animations/eat.glb",
    "eating" := "/static/assets/Animations/eat.glb",
    "khana" := "/static/assets/Animations/eat.glb",
    "tinu" := "/static/assets/Animations/eat.glb",
    "saapidu" := "/static/assets/Animations/eat.glb"
  ]

  /** The Polite entries. */
  const POLITE: map<string, string> := map[
    "please" := "/static/assets/Animations/please.glb",
    "sorry" := "/static/assets/Animations/sorry.glb",
    "thank" := "/static/assets/Animations/thankyou.glb",
    "thanks" := "/static/assets/Animations/thankyou.glb",
    "welcome" := "/static/assets/Animations/welcome.glb"
  ]

  /** The Questions entries. */
  const QUESTIONS: map<string, string> := map[
    "what" := "/static/assets/Animations/what.glb",
    "how" := "/static/assets/Animations/how.glb",
    "name" := "/static/assets/Animations/name.glb",
    "yes" := "/static/assets/Animations/yes.glb",
    "ok" := "/static/assets/Animations/ok.glb",
    "kya" := "/static/assets/Animations/what.glb",
    "kaise" := "/static/assets/Animations/how.glb",
    "naam" := "/static/assets/Animations/name.glb",
    "haan" := "/static/assets/Animations/yes.glb",
    "emi" := "/static/assets/Animations/what.glb",
    "ela" := "/static/assets/Animations/how.glb",
    "peru" := "/static/assets/Animations/name.glb",
    "enna" := "/static/assets/Animations/what.glb",
    "eppadi" := "/static/assets/Animations/how.glb",
    "peyar" := "/static/assets/Animations/name.glb"
  ]

  /** The whole table. No word appears in two groups, so the order of the
      union changes no lookup; the greetings come last so that their
      lookups read off one group. */
  const SIGN_MAP: map<string, string> := PRONOUNS + ACTIONS + POLITE + QUESTIONS + GREETINGS

  const HELLO_CLIP := "/static/assets/Animations/hello.glb"

  /** Every key is a word of one to ten lower-case ASCII letters. */
  predicate KeyShaped(w: string) {
    0 < |w| <= 10 && forall i :: 0 <= i < |w| ==> 'a' <= w[i] <= 'z'
  }

  lemma GreetingKeysShaped(w: string)
    requires w in GREETINGS
    ensures KeyShaped(w)
  {
  }

  lemma PronounKeysShaped(w: string)
    requires w in PRONOUNS
    ensures KeyShaped(w)
  {
  }

  lemma ActionKeysShaped(w: string)
    requires w in ACTIONS
    ensures KeyShaped(w)
  {
  }

  lemma PoliteKeysShaped(w: string)
    requires w in POLITE
    ensures KeyShaped(w)
  {
  }

  lemma QuestionKeysShaped(w: string)
    requires w in QUESTIONS
    ensures KeyShaped(w)
  {
  }

  /** Every key of the table has that shape: the empty word, "constructor"
      (eleven letters) and "__proto__" are not keys. */
  lemma KeysShaped()
    ensures forall w :: w in SIGN_MAP ==> KeyShaped(w)
    ensures "" !in SIGN_MAP && "constructor" !in SIGN_MAP && "__proto__" !in SIGN_MAP
  {
    forall w | w in SIGN_MAP
      ensures KeyShaped(w)
    {
      if w in GREETINGS {
        GreetingKeysShaped(w);
      } else if w in PRONOUNS {
        PronounKeysShaped(w);
      } else if w in ACTIONS {
        ActionKeysShaped(w);
      } else if w in POLITE {
        PoliteKeysShaped(w);
      } else {
        QuestionKeysShaped(w);
      }
    }
    assert !KeyShaped("constructor");
    assert !KeyShaped("__proto__") by { assert "__proto__"[0] == '_'; }
  }

  /** The inherited `Object.prototype` properties whose names are all
      lower-case ASCII word characters: a lookup `SIGN_MAP[w]` finds a truthy
      value for them although they are not entries of the table. */
  const PROTOTYPE_NAMES: set<string> := {"constructor", "__proto__"}

  /** `toLowerCase` followed by `replace(/[^\w\s]/g, "")`. */
  function Normalise(input: string): (r: string)
    ensures forall c :: c in r ==> (IsWordChar(c) || IsSpace(c)) && !('A' <= c <= 'Z')
  {
    LowerHasNoUpper(input);
    KeepWordAndSpace(Lower(input))
  }

  /** `split(/\s+/)` of the normalised input. */
  function Fragments(input: string): seq<string> {
    SplitWs(Normalise(input))
  }

  /** `filter`: the words found in `keys`, in their order. */
  function KeepKnown(ws: seq<string>, keys: set<string>): (r: seq<string>)
    ensures |r| <= |ws|
    ensures forall w :: w in r <==> w in ws && w in keys
  {
    if ws == [] then []
    else (if ws[0] in keys then [ws[0]] else []) + KeepKnown(ws[1..], keys)
  }

  /** The words `signWord` hands to `playSentence`, with the truthiness test
      `SIGN_MAP[w]` as the page evaluates it: the prototype names pass. */
  function SignWordsAsWritten(input: string): (r: seq<string>)
    ensures forall w :: w in r <==> w in Fragments(input) && (w in SIGN_MAP || w in PROTOTYPE_NAMES)
  {
    KeepKnown(Fragments(input), SIGN_MAP.Keys + PROTOTYPE_NAMES)
  }

  /** The words to sign, looking up the table's own entries only. */
  function SignWords(input: string): (r: seq<string>)
    ensures forall w :: w in r <==> w in Fragments(input) && w in SIGN_MAP
    ensures "" !in r
  {
    KeysShaped();
    KeepKnown(Fragments(input), SIGN_MAP.Keys)
  }

  /** The filter commutes with concatenation: kept words stay in order and
      nothing is reordered across the two halves. */
  lemma {:induction false} KeepKnownAppend(a: seq<string>, b: seq<string>, keys: set<string>)
    ensures KeepKnown(a + b, keys) == KeepKnown(a, keys) + KeepKnown(b, keys)
  {
    if a != [] {
      KeepKnownAppend(a[1..], b, keys);
      assert (a + b)[0] == a[0];
      assert (a + b)[1..] == a[1..] + b;
      var h := if a[0] in keys then [a[0]] else [];
      assert KeepKnown(a + b, keys) == h + KeepKnown(a[1..] + b, keys);
      assert h + (KeepKnown(a[1..], keys) + KeepKnown(b, keys))
          == (h + KeepKnown(a[1..], keys)) + KeepKnown(b, keys);
    } else {
      assert a + b == b;
    }
  }

  /** With `KeepKnownAppend`, this pins the filter down completely: a word is
      kept, alone and in place, exactly when it is a key. */
  lemma KeepKnownSingle(w: string, keys: set<string>)
    ensures KeepKnown([w], keys) == if w in keys then [w] else []
  {
    assert [w][1..] == [];
  }

  /** Extra keys that no word matches change nothing. */
  lemma {:induction false} KeepKnownExtra(ws: seq<string>, keys: set<string>, extra: set<string>)
    requires forall i :: 0 <= i < |ws| ==> ws[i] !in extra
    ensures KeepKnown(ws, keys + extra) == KeepKnown(ws, keys)
  {
    if ws != [] {
      KeepKnownExtra(ws[1..], keys, extra);
    }
  }

  /** Where no fragment is a prototype name, the page's filter and the
      own-entry filter agree. */
  lemma AsWrittenAgrees(input: string)
    requires forall i :: 0 <= i < |Fragments(input)| ==> Fragments(input)[i] !in PROTOTYPE_NAMES
    ensures SignWordsAsWritten(input) == SignWords(input)
  {
    KeepKnownExtra(Fragments(input), SIGN_MAP.Keys, PROTOTYPE_NAMES);
  }

  /** A word of lower-case letters is its own normal form and its own
      single fragment. */
  lemma PlainWordFragments(input: string)
    requires forall i :: 0 <= i < |input| ==> 'a' <= input[i] <= 'z'
    ensures Fragments(input) == [input]
  {
    LowerNoOp(input);
    KeepWordAndSpaceNoOp(input);
    assert Normalise(input) == input;
    SplitWsNoSpace(input, "");
    assert "" + input == input;
  }

  /** An input that is one fragment is kept exactly when the lookup finds
      that fragment. */
  lemma SingleFragment(input: string, w: string)
    requires Fragments(input) == [w]
    ensures SignWords(input) == if w in SIGN_MAP then [w] else []
    ensures SignWordsAsWritten(input) == if w in SIGN_MAP || w in PROTOTYPE_NAMES then [w] else []
  {
    KeepKnownSingle(w, SIGN_MAP.Keys);
    KeepKnownSingle(w, SIGN_MAP.Keys + PROTOTYPE_NAMES);
  }

  /** The word "constructor" is not in the table, yet the page keeps it. */
  lemma ConstructorKept(input: string)
    requires input == "constructor"
    ensures input !in SIGN_MAP
    ensures SignWordsAsWritten(input) == [input]
    ensures SignWords(input) == []
  {
    assert input !in SIGN_MAP by { KeysShaped(); }
    PlainWordFragments(input);
    SingleFragment(input, input);
  }

  lemma LowerHello(input: string)
    requires input == "Hello!"
    ensures Lower(input) == "hello!"
  {
    var w := "hello";
    assert input == "H" + w[1..] + "!";
    LowerAppend("H" + w[1..], "!");
    LowerAppend("H", w[1..]);
    LowerNoOp(w[1..]);
    LowerNoOp("!");
  }

  /** A trailing punctuation mark is dropped and the word before it kept. */
  lemma KeepDropsMark(w: string, c: char)
    requires forall i :: 0 <= i < |w| ==> IsWordChar(w[i])
    requires !IsWordChar(c) && !IsSpace(c)
    ensures KeepWordAndSpace(w + [c]) == w
  {
    KeepWordAndSpaceAppend(w, [c]);
    KeepWordAndSpaceNoOp(w);
    assert [c][1..] == [];
    assert w + [] == w;
  }

  lemma KeepHello(t: string)
    requires t == "hello!"
    ensures KeepWordAndSpace(t) == "hello"
  {
    assert t == "hello" + ['!'];
    KeepDropsMark("hello", '!');
  }

  lemma NormaliseHello(input: string)
    requires input == "Hello!"
    ensures Normalise(input) == "hello"
  {
    LowerHello(input);
    KeepHello(Lower(input));
  }

  lemma HelloFragments(input: string, w: string)
    requires input == "Hello!" && w == "hello"
    ensures Fragments(input) == [w]
  {
    NormaliseHello(input);
    SplitWsNoSpace(w, "");
    assert "" + w == w;
  }

  /** Punctuation and capitals are removed before the lookup. */
  lemma HelloExample(input: string)
    requires input == "Hello!"
    ensures SignWords(input) == ["hello"]
  {
    HelloFragments(input, "hello");
    assert "hello" in SIGN_MAP by { assert "hello" in GREETINGS; }
    SingleFragment(input, "hello");
  }

  lemma NormaliseLeadingSpace(input: string)
    requires input == " Hi"
    ensures Normalise(input) == " hi"
  {
    var w := "hi";
    assert input == " H" + "i";
    LowerAppend(" H", "i");
    LowerNoOp("i");
    KeepWordAndSpaceNoOp([' '] + w);
  }

  lemma SplitLeadingSpace(s: string)
    requires s == " hi"
    ensures SplitWs(s) == ["", "hi"]
  {
    var w := "hi";
    assert IsSpace(s[0]) && s[1..] == w;
    assert DropSpaces(w) == w;
    SplitWsNoSpace(w, "");
    assert "" + w == w;
  }

  /** Leading white space gives an empty first fragment, which is dropped. */
  lemma LeadingSpaceExample(input: string)
    requires input == " Hi"
    ensures Fragments(input) == ["", "hi"]
    ensures SignWords(input) == ["hi"]
  {
    var w := "hi";
    assert Fragments(input) == [""] + [w] by {
      NormaliseLeadingSpace(input);
      SplitLeadingSpace(" hi");
    }
    assert "" !in SIGN_MAP by { KeysShaped(); }
    KeepKnownAppend([""], [w], SIGN_MAP.Keys);
    KeepKnownSingle("", SIGN_MAP.Keys);
    KeepKnownSingle(w, SIGN_MAP.Keys);
  }

  /** The table is many-to-one: the six greetings, in four languages, share
      one clip. */
  lemma GreetingsShareClip()
    ensures "hello" in GREETINGS && "hi" in GREETINGS && "vanakkam" in GREETINGS
    ensures forall w :: w in GREETINGS ==> w in SIGN_MAP && SIGN_MAP[w] == HELLO_CLIP
  {
    GreetingClips();
  }

  lemma GreetingClips()
    ensures forall w :: w in GREETINGS ==> GREETINGS[w] == HELLO_CLIP
  {
  }

  /** The position of the next word `playSentence` loads from `table`,
      starting at `index`: the first word with an entry, or none. */
  function NextClip(table: map<string, string>, words: seq<string>, index: nat): (r: Option<nat>)
    ensures r.Some? ==> index <= r.value < |words| && words[r.value] in table
    ensures r.Some? ==> forall j :: index <= j < r.value ==> words[j] !in table
    ensures r.None? ==> forall j :: index <= j < |words| ==> words[j] !in table
    decreases |words| - index
  {
    if index >= |words| then None
    else if words[index] in table then Some(index)
    else NextClip(table, words, index + 1)
  }

  /** The clips a chain started at `index` plays, in order. */
  function ClipsFrom(table: map<string, string>, words: seq<string>, index: nat): seq<string>
    decreases |words| - index
  {
    if index >= |words| then []
    else
      (if words[index] in table then [table[words[index]]] else [])
      + ClipsFrom(table, words, index + 1)
  }

  /** Walking the chain clip by clip plays exactly `ClipsFrom`: the next
      clip, then the rest after it; nothing once no mapped word is left. */
  lemma {:induction false} ChainPlaysClips(table: map<string, string>, words: seq<string>, index: nat)
    ensures NextClip(table, words, index).None? ==> ClipsFrom(table, words, index) == []
    ensures NextClip(table, words, index).Some? ==>
      var j := NextClip(table, words, index).value;
      ClipsFrom(table, words, index) == [table[words[j]]] + ClipsFrom(table, words, j + 1)
    decreases |words| - index
  {
    if index >= |words| {
      assert NextClip(table, words, index) == None;
    } else if words[index] in table {
      assert NextClip(table, words, index) == Some(index);
      assert ClipsFrom(table, words, index) == [table[words[index]]] + ClipsFrom(table, words, index + 1);
    } else {
      assert NextClip(table, words, index) == NextClip(table, words, index + 1);
      assert ClipsFrom(table, words, index) == [] + ClipsFrom(table, words, index + 1);
      ChainPlaysClips(table, words, index + 1);
    }
  }

  /** A filtered word list is played in full, one clip per word. */
  lemma {:induction false} FilteredPlaysAll(table: map<string, string>, words: seq<string>, index: nat)
    requires forall i :: 0 <= i < |words| ==> words[i] in table
    ensures |ClipsFrom(table, words, index)| == if index < |words| then |words| - index else 0
    decreases |words| - index
  {
    if index < |words| {
      FilteredPlaysAll(table, words, index + 1);
    }
  }

  /** A clip the player is about to load: the word list, the position and
      the clip's path. */
  datatype Load = Load(words: seq<string>, index: nat, file: string)

  /** What a chain waits for after an event: a clip loading, a clip playing,
      or nothing (the chain has ended or never started). */
  datatype Pending = Loading(load: Load) | Playing(clip: Load) | Stopped

  /** What `playSentence(words, index)` leaves pending over `table`: the load
      of the next mapped word's clip, or nothing once no mapped word is left. */
  function NextPending(table: map<string, string>, words: seq<string>, index: nat): Pending {
    match NextClip(table, words, index)
    case None => Stopped
    case Some(j) => Loading(Load(words, j, table[words[j]]))
  }

  /** The avatar player: `ready` stands for `avatar && mixer` being set. */
  class Player {
    var ready: bool
    var isPlaying: bool

    constructor ()
      ensures !ready && !isPlaying
    {
      ready := false;
      isPlaying := false;
    }

    /** The base avatar's load callback sets `avatar` and `mixer`. */
    method AvatarLoaded()
      modifies this
      ensures ready && isPlaying == old(isPlaying)
    {
      ready := true;
    }

    /** The synchronous part of `playSentence(words, index)`: at the end of
        the list it clears `isPlaying`; an unmapped word is skipped by
        recursing on the next index; a mapped word starts its load. */
    method PlaySentence(words: seq<string>, index: nat) returns (next: Pending)
      modifies this
      ensures next.Stopped? <==> NextClip(SIGN_MAP, words, index).None?
      ensures next.Loading? ==>
        next.load == Load(words, NextClip(SIGN_MAP, words, index).value, SIGN_MAP[words[NextClip(SIGN_MAP, words, index).value]])
      ensures !next.Playing?
      ensures next == NextPending(SIGN_MAP, words, index)
      ensures ready == old(ready)
      ensures isPlaying == (next.Loading? && old(isPlaying))
      decreases |words| - index
    {
      if index >= |words| {
        isPlaying := false;
        return Stopped;
      }
      if words[index] !in SIGN_MAP {
        next := PlaySentence(words, index + 1);
        return;
      }
      return Loading(Load(words, index, SIGN_MAP[words[index]]));
    }

    /** `window.signWord`: nothing happens while the avatar is not ready,
        while a clip plays, or when no word survives the filter; otherwise
        the first word's clip starts loading. */
    method SignWord(input: string) returns (next: Pending)
      modifies this
      ensures next.Stopped? <==> !ready || isPlaying || SignWords(input) == []
      ensures !next.Stopped? ==>
        next == Loading(Load(SignWords(input), 0, SIGN_MAP[SignWords(input)[0]]))
      ensures ready == old(ready) && isPlaying == old(isPlaying)
    {
      if !ready || isPlaying {
        return Stopped;
      }
      var words := SignWords(input);
      if |words| == 0 {
        return Stopped;
      }
      assert words[0] in words;
      next := PlaySentence(words, 0);
    }

    /** The clip's load callback: a file without animations is skipped;
        otherwise the clip plays and `isPlaying` is set. */
    method OnClipLoaded(load: Load, hasAnimation: bool) returns (next: Pending)
      modifies this
      ensures hasAnimation ==> next == Playing(load) && isPlaying
      ensures !hasAnimation ==> (next.Stopped? <==> NextClip(SIGN_MAP, load.words, load.index + 1).None?)
      ensures !hasAnimation ==> !next.Playing? && next == NextPending(SIGN_MAP, load.words, load.index + 1)
      ensures !hasAnimation ==> isPlaying == (next.Loading? && old(isPlaying))
      ensures ready == old(ready)
    {
      if !hasAnimation {
        next := PlaySentence(load.words, load.index + 1);
        return;
      }
      isPlaying := true;
      return Playing(load);
    }

    /** The timer that fires when the clip has run its duration: the action
        stops and the chain moves to the next word. */
    method OnClipFinished(clip: Load) returns (next: Pending)
      modifies this
      ensures next.Stopped? <==> NextClip(SIGN_MAP, clip.words, clip.index + 1).None?
      ensures next.Loading? ==> next.load.index == NextClip(SIGN_MAP, clip.words, clip.index + 1).value
      ensures !next.Playing? && next == NextPending(SIGN_MAP, clip.words, clip.index + 1)
      ensures isPlaying == (next.Loading? && old(isPlaying))
      ensures ready == old(ready)
    {
      next := PlaySentence(clip.words, clip.index + 1);
    }
  }
}
