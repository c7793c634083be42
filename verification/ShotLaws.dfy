/** Readers of what the renderer writes of a shot: its number and cut time, its camera sentence
    and its dialogue clauses. They know the words of the wire text and nothing of the renderer. */
module ShotLaws {
  import opened Prelude
  import opened Text
  import opened Decimal
  import opened Grammar
  import opened CutTimes
  import opened Prompts
  import opened Containment
  import opened Render
  import opened Pieces
  import opened RenderLaws
  import opened Scanner
  import opened DialogueLaws
  import opened CheckLaws
  import opened HeaderLaws
  import opened SectionLaws

  // ------------------------------------------------------------ camera sentence

  const SLOW: string := "at slow speed"
  const FAST: string := "at fast speed"
  const SMALL: string := "with small amplitude"
  const LARGE: string := "with large amplitude"

  /** A text without one of two endings, and which it was. */
  function CutEnd(s: string, one: string, other: string): (string, Option<string>) {
    if EndsWith(s, " " + one) then (s[..|s| - |one| - 1], Some(one))
    else if EndsWith(s, " " + other) then (s[..|s| - |other| - 1], Some(other))
    else (s, None)
  }

  /** What a camera sentence says: the motion in prose, its amplitude and its speed. */
  datatype Seen = Seen(phrase: string, amplitude: Option<string>, speed: Option<string>)

  function ReadCamera(s: string): Option<Seen> {
    if |s| < 12 || s[..11] != "The camera " || s[|s| - 1] != '.' then None
    else
      var (a, speed) := CutEnd(s[11..|s| - 1], SLOW, FAST);
      var (phrase, amplitude) := CutEnd(a, SMALL, LARGE);
      Some(Seen(phrase, amplitude, speed))
  }

  /** Ends like no amplitude and no speed. */
  predicate Bare(phrase: string) {
    |phrase| >= 2 && phrase[|phrase| - 2..] != "de" && phrase[|phrase| - 2..] != "ed"
  }

  predicate AllBare(table: seq<CameraMotion>) {
    forall k | 0 <= k < |table| :: Bare(table[k].phrase)
  }

  lemma MotionsBare()
    ensures AllBare(CAMERA_MOTIONS)
  {
    assert AllBare(FORWARD_MOTIONS) && AllBare(SIDEWAYS_MOTIONS) && AllBare(VERTICAL_MOTIONS);
    assert AllBare(FOLLOWING_MOTIONS) && AllBare(HANDLING_MOTIONS);
    hide Bare, FORWARD_MOTIONS, SIDEWAYS_MOTIONS, VERTICAL_MOTIONS, FOLLOWING_MOTIONS, HANDLING_MOTIONS;
  }

  lemma EndCut(s: string, one: string, other: string, which: Option<string>)
    requires which.Some? ==> which.value in {one, other}
    requires one != "" && other != "" && |one| == |other| && one != other
    requires which.None? ==> !EndsWith(s, " " + one) && !EndsWith(s, " " + other)
    ensures CutEnd(s + (if which.Some? then " " + which.value else ""), one, other) == (s, which)
  {
    if which.Some? {
      var tail := " " + which.value;
      var t := s + tail;
      assert t[|s|..] == tail && t[..|s|] == s;
      assert " " + one != " " + other by { assert (" " + one)[1..] == one && (" " + other)[1..] == other; }
    } else {
      assert s + "" == s;
    }
  }

  lemma SameEnding(s: string, tail: string)
    requires EndsWith(s, tail) && |tail| >= 2
    ensures |s| >= 2 && s[|s| - 2..] == tail[|tail| - 2..]
  {
  }

  lemma ModifierEndings()
    ensures |SLOW| == |FAST| == 13 && |SMALL| == |LARGE| == 20
    ensures (" " + SLOW)[12..] == "ed" && (" " + FAST)[12..] == "ed" && SLOW != FAST
    ensures (" " + SMALL)[19..] == "de" && (" " + LARGE)[19..] == "de" && SMALL != LARGE
  {
    assert SLOW[3] == 's' && FAST[3] == 'f' && SMALL[5] == 's' && LARGE[5] == 'l';
  }

  lemma ModifiersAre(s: string)
    ensures IsAmplitude(s) ==> s in {SMALL, LARGE}
    ensures IsSpeed(s) ==> s in {SLOW, FAST}
  {
  }

  /** Two characters at the end tell a text from one of the four modifiers. */
  lemma EndsOtherwise(s: string, end: string)
    requires |s| >= 2 && s[|s| - 2..] != end
    ensures end == "ed" ==> !EndsWith(s, " " + SLOW) && !EndsWith(s, " " + FAST)
    ensures end == "de" ==> !EndsWith(s, " " + SMALL) && !EndsWith(s, " " + LARGE)
  {
    ModifierEndings();
    hide SLOW, FAST, SMALL, LARGE;
    if EndsWith(s, " " + SLOW) { SameEnding(s, " " + SLOW); }
    if EndsWith(s, " " + FAST) { SameEnding(s, " " + FAST); }
    if EndsWith(s, " " + SMALL) { SameEnding(s, " " + SMALL); }
    if EndsWith(s, " " + LARGE) { SameEnding(s, " " + LARGE); }
  }

  function Added(modifier: Option<string>): string {
    if modifier.Some? then " " + modifier.value else ""
  }

  lemma EndingOf(s: string, modifier: string)
    requires modifier in {SMALL, LARGE}
    ensures var t := s + (" " + modifier); |t| >= 2 && t[|t| - 2..] == "de"
  {
    ModifierEndings();
    var t := s + (" " + modifier);
    assert t[|t| - 2..] == (" " + modifier)[19..];
  }

  lemma CameraParts(phrase: string, amplitude: Option<string>, speed: Option<string>)
    requires Bare(phrase) && (amplitude.Some? ==> amplitude.value in {SMALL, LARGE}) && (speed.Some? ==> speed.value in {SLOW, FAST})
    ensures var (a, found) := CutEnd(phrase + Added(amplitude) + Added(speed), SLOW, FAST);
      found == speed && CutEnd(a, SMALL, LARGE) == (phrase, amplitude)
  {
    ModifierEndings();
    hide EndsWith, CutEnd, SLOW, FAST, SMALL, LARGE;
    var a := phrase + Added(amplitude);
    if amplitude.Some? { EndingOf(phrase, amplitude.value); } else { assert a == phrase; }
    assert a[|a| - 2..] != "ed";
    EndsOtherwise(a, "ed");
    EndCut(a, SLOW, FAST, speed);
    EndsOtherwise(phrase, "de");
    EndCut(phrase, SMALL, LARGE, amplitude);
  }

  lemma JoinedSentence(camera: string, phrase: string, amplitude: Option<string>, speed: Option<string>)
    requires (amplitude.Some? ==> amplitude.value != "") && (speed.Some? ==> speed.value != "")
    ensures Join(" ", [camera, phrase] + Modifier(amplitude) + Modifier(speed)) == camera + " " + (phrase + Added(amplitude) + Added(speed))
  {
    hide Join;
    if amplitude.None? && speed.None? {
      JoinCons(" ", camera, [phrase]);
      JoinOne(" ", phrase);
      assert [camera, phrase] + Modifier(amplitude) + Modifier(speed) == [camera] + [phrase];
    } else if amplitude.Some? && speed.Some? {
      assert [camera, phrase] + Modifier(amplitude) + Modifier(speed) == [camera] + [phrase, amplitude.value, speed.value];
      JoinCons(" ", camera, [phrase, amplitude.value, speed.value]);
      JoinThree(" ", phrase, amplitude.value, speed.value);
    } else {
      var m := if amplitude.Some? then amplitude.value else speed.value;
      assert [camera, phrase] + Modifier(amplitude) + Modifier(speed) == [camera, phrase, m];
      JoinThree(" ", camera, phrase, m);
    }
  }

  lemma JoinOne(sep: string, a: string)
    ensures Join(sep, [a]) == a
  {
  }

  lemma MotionInProse(motion: string) returns (phrase: Plain)
    requires IsMotion(motion)
    ensures MotionPhrase(motion) == Some(phrase) && Bare(phrase)
    ensures exists k :: 0 <= k < |CAMERA_MOTIONS| && CAMERA_MOTIONS[k] == CameraMotion(motion, phrase)
  {
    Motions(motion);
    PhraseAmongExact(CAMERA_MOTIONS, motion);
    MotionsBare();
    hide CAMERA_MOTIONS, IsMotion, Bare;
    phrase := MotionPhrase(motion).value;
    var k :| 0 <= k < |CAMERA_MOTIONS| && CAMERA_MOTIONS[k] == CameraMotion(motion, phrase);
    assert Bare(CAMERA_MOTIONS[k].phrase);
  }

  lemma SentenceSays(phrase: string, amplitude: Option<string>, speed: Option<string>)
    requires Bare(phrase) && (amplitude.Some? ==> amplitude.value in {SMALL, LARGE}) && (speed.Some? ==> speed.value in {SLOW, FAST})
    ensures ReadCamera("The camera" + " " + (phrase + Added(amplitude) + Added(speed)) + ".") == Some(Seen(phrase, amplitude, speed))
  {
    SentenceReads(phrase + Added(amplitude) + Added(speed));
    CameraParts(phrase, amplitude, speed);
    hide CutEnd, SLOW, FAST, SMALL, LARGE, Bare, Added;
  }

  lemma ModifiersWritten(c: CameraDirection)
    requires CameraFits(c)
    ensures (c.amplitude.Some? ==> c.amplitude.value in {SMALL, LARGE} && c.amplitude.value != "")
    ensures (c.speed.Some? ==> c.speed.value in {SLOW, FAST} && c.speed.value != "")
  {
    if c.amplitude.Some? { ModifiersAre(c.amplitude.value); }
    if c.speed.Some? { ModifiersAre(c.speed.value); }
    hide IsMotion, IsAmplitude, IsSpeed;
    ModifierEndings();
  }

  /** The camera sentence of an accepted shot reads back: the prose of its motion in the table, and
      its amplitude and speed as given or absent. */
  lemma CameraReadsBack(shot: Shot) returns (phrase: Plain)
    requires shot.camera.Some? && CameraFits(shot.camera.value)
    ensures CameraSentence(shot).Ok? && var c := shot.camera.value;
      ReadCamera(CameraSentence(shot).value) == Some(Seen(phrase, c.amplitude, c.speed))
    ensures exists k :: 0 <= k < |CAMERA_MOTIONS| && CAMERA_MOTIONS[k] == CameraMotion(shot.camera.value.motion, phrase)
  {
    var c := shot.camera.value;
    phrase := MotionInProse(c.motion);
    ModifiersWritten(c);
    hide CAMERA_MOTIONS, MotionPhrase, IsMotion, IsAmplitude, IsSpeed, ReadCamera, Join, Bare, SLOW, FAST, SMALL, LARGE;
    SentenceSays(phrase, c.amplitude, c.speed);
    JoinedSentence("The camera", phrase, c.amplitude, c.speed);
  }

  lemma SentenceReads(mid: string)
    ensures var s := "The camera" + " " + mid + ".";
      |s| >= 12 && s[..11] == "The camera " && s[|s| - 1] == '.' && s[11..|s| - 1] == mid
  {
  }

  // ------------------------------------------------------------ dialogue clause

  const OFF_SCREEN: string := " says in an" + " off-screen" + " voiceover: "
  const SAYS: string := " says: "
  const LIPS: string := " while their lips" + " remain completely" + " closed."
  const ACROSS: string := " The line continues" + " seamlessly across" + " the cut."
  const BROKEN: string := " The line is cut off" + " by the end" + " of the video."

  /** A text without words it may begin with, and whether it did. */
  function Drop(s: string, words: string): (bool, string) {
    if words <= s then (true, s[|words|..]) else (false, s)
  }

  /** The last bracketed text of a lead. */
  function SpeakerIn(lead: string): Option<string> {
    match LastAt("(", lead, |lead|)
    case None => None
    case Some(k) => if k + 1 < |lead| && lead[|lead| - 1] == ')' then Some(lead[k + 1..|lead| - 1]) else None
  }

  /** What a dialogue clause says: who speaks, whether off screen, what is said in which language,
      and whether the line goes on across the cut or is broken off. */
  datatype Heard = Heard(speaker: string, offScreen: bool, content: string, across: bool, broken: bool)

  /** Who speaks, and whether off screen. */
  function ReadLead(before: string): Option<(string, bool)> {
    var off := EndsWith(before, OFF_SCREEN);
    if !off && !EndsWith(before, SAYS) then None
    else match SpeakerIn(before[..|before| - if off then |OFF_SCREEN| else |SAYS|])
      case None => None
      case Some(speaker) => Some((speaker, off))
  }

  /** The three remarks behind an utterance: closed lips, across the cut, broken off. */
  function ReadTail(after: string): Option<(bool, bool, bool)> {
    var (lips, a) := Drop(after, LIPS);
    var (across, b) := Drop(a, ACROSS);
    var (broken, c) := Drop(b, BROKEN);
    if c == "" then Some((lips, across, broken)) else None
  }

  function ReadClause(s: string): Option<Heard> {
    match Find("<d>", s)
    case None => None
    case Some(i) =>
      var inner := s[i + 3..];
      match Find("</d>", inner)
      case None => None
      case Some(j) =>
        match (ReadLead(s[..i]), ReadTail(inner[j + 4..]))
        case (Some((speaker, off)), Some((lips, across, broken))) =>
          if off == lips then Some(Heard(speaker, off, inner[..j], across, broken)) else None
        case _ => None
  }

  // ---------------------------------------------------------------- read back

  lemma VerbsAre()
    ensures " " + VOICEOVER_PHRASE + ": " == OFF_SCREEN && " " + "says" + ": " == SAYS
  {
  }

  lemma RemarksAre()
    ensures LIPS_CLOSED == LIPS
    ensures CONTINUES == ACROSS
    ensures CUT_OFF == BROKEN
  {
  }

  lemma WordsDiffer()
    ensures |SAYS| == 7 && |OFF_SCREEN| > 7 && SAYS[4] == 's' && OFF_SCREEN[|OFF_SCREEN| - 3] == 'r'
    ensures SAYS[|SAYS| - 1] == ' ' && OFF_SCREEN[|OFF_SCREEN| - 1] == ' '
    ensures |LIPS| > 10 && |ACROSS| > 10 && |BROKEN| > 10
    ensures LIPS[1] == 'w' && ACROSS[1] == 'T' && BROKEN[1] == 'T' && ACROSS[10] == 'c' && BROKEN[10] == 'i'
  {
  }

  lemma DropReads(given: bool, words: string, rest: string)
    requires words != "" && !(words <= rest)
    ensures Drop((if given then words else "") + rest, words) == (given, rest)
  {
    if given { assert (words + rest)[|words|..] == rest; } else { assert "" + rest == rest; }
  }

  lemma TailReads(lips: bool, across: bool, broken: bool)
    ensures ReadTail((if lips then LIPS else "") + ((if across then ACROSS else "") + (if broken then BROKEN else ""))) == Some((lips, across, broken))
  {
    WordsDiffer();
    hide LIPS, ACROSS, BROKEN;
    var c := if broken then BROKEN else "";
    var b := (if across then ACROSS else "") + c;
    assert !(LIPS <= b) by { if across { assert b[1] == 'T'; } else { assert b == c; } }
    assert !(ACROSS <= c) by { if broken { assert c[10] == 'i'; } }
    DropReads(lips, LIPS, b);
    DropReads(across, ACROSS, c);
    assert c == (if broken then BROKEN else "") + "";
    DropReads(broken, BROKEN, "");
  }

  lemma SpeakerReads(a: string, id: string)
    requires '(' !in id
    ensures SpeakerIn(a + ("(" + id + ")")) == Some(id)
  {
    var lead := a + ("(" + id + ")");
    assert lead[|a|..|a| + 1] == "(";
    assert Occurs("(", lead, |a|);
    var k := LastAt("(", lead, |lead|).value;
    assert forall j: nat | |a| < j < |lead| :: lead[j] == ("(" + id + ")")[j - |a|] != '(';
    assert lead[k] == '(' by { FirstCharacter("(", lead, k); }
    assert lead[|a| + 1..|lead| - 1] == id;
  }

  lemma {:induction false} StripLeftKeeps(a: string, b: string) returns (rest: string)
    requires b != "" && !IsSpace(b[0])
    ensures StripLeft(a + b) == rest + b
  {
    hide IsSpace;
    if a == "" || !IsSpace(a[0]) {
      rest := a;
      assert (a + b)[0] == if a == "" then b[0] else a[0];
    } else {
      assert (a + b)[1..] == a[1..] + b;
      rest := StripLeftKeeps(a[1..], b);
    }
  }

  /** However an identity is spaced, the lead of its line ends in the bracketed speaker. */
  lemma LeadEnds(line: DialogueLine) returns (a: string)
    ensures Lead(line) == a + ("(" + line.speakerId + ")")
  {
    var speaker := "(" + line.speakerId + ")";
    a := "";
    if line.identity != "" {
      a := StripLeftKeeps(line.identity + " ", speaker);
      assert line.identity + " " + speaker == (line.identity + " ") + speaker;
      var left := a + speaker;
      assert left[|left| - 1] == ')' && !IsSpace(')');
      hide StripLeft;
      assert StripRight(left) == left;
    } else {
      assert a + speaker == speaker;
    }
  }

  lemma NoBracketInSpeakers(s: string)
    requires IsSpeakerId(s)
    ensures '(' !in s
  {
    var parts := Split(s, ',');
    JoinSplit(s, ',');
    forall k | 0 <= k < |parts| ensures '(' !in parts[k] {
      assert IsSpeaker(parts[k]);
      assert forall j | 1 <= j < |parts[k]| :: parts[k][j] == parts[k][1..][j - 1];
    }
    hide IsSpeaker;
    JoinedLack(",", parts, '(');
  }

  lemma LeadReads(line: DialogueLine)
    requires ValidLine(line)
    ensures ReadLead(Lead(line) + (if line.voiceover then OFF_SCREEN else SAYS)) == Some((line.speakerId, line.voiceover))
  {
    hide IsSpeakerId;
    NoBracketInSpeakers(line.speakerId);
    var a := LeadEnds(line);
    SpeakerReads(a, line.speakerId);
    WordsDiffer();
    hide Lead, OFF_SCREEN, SAYS, SpeakerIn;
    var words := if line.voiceover then OFF_SCREEN else SAYS;
    var before := Lead(line) + words;
    assert before[|Lead(line)|..] == words && before[..|Lead(line)|] == Lead(line);
    ThirdLast(before, OFF_SCREEN);
    assert before[|before| - 3] == words[|words| - 3];
  }

  lemma ThirdLast(s: string, words: string)
    requires |words| >= 3
    ensures EndsWith(s, words) ==> |s| >= 3 && s[|s| - 3] == words[|words| - 3]
  {
    if EndsWith(s, words) { assert s[|s| - |words|..][|words| - 3] == s[|s| - 3]; }
  }

  /** A dialogue clause reads back, whatever the identity in front of it: who speaks and whether
      off screen, what is said and in which language, and both remarks about the cut. */
  lemma ClauseReadsBack(line: DialogueLine)
    requires ValidLine(line) && Quiet(line.identity) && LineSealed(line) && Inert(line.text)
    ensures ReadClause(DialogueClause(line))
            == Some(Heard(line.speakerId, line.voiceover, "[" + line.language + "] " + line.text, line.continuesAcrossCut, line.truncatedByEnd))
  {
    hide Contains, Lead, Inert, IsSpeakerId, Strip, ReadLead, ReadTail;
    LeadQuiet(line);
    LeadReads(line);
    InertIsQuiet(line.text);
    SpokenSealed(line);
    VerbsAre();
    RemarksAre();
    TailReads(line.voiceover, line.continuesAcrossCut, line.truncatedByEnd);
    var words := if line.voiceover then OFF_SCREEN else SAYS;
    var lips, across, broken := if line.voiceover then LIPS else "", if line.continuesAcrossCut then ACROSS else "",
                                if line.truncatedByEnd then BROKEN else "";
    ClauseIs(line, words, lips, across, broken);
    WordsDiffer();
    BeforeOpen(Lead(line), words, Spoken(line) + DIALOGUE_CLOSE + (lips + (across + broken)));
    hide OFF_SCREEN, SAYS, LIPS, ACROSS, BROKEN, Find, Spoken;
    UtteranceReads(Lead(line) + words, Spoken(line), lips + (across + broken));
  }

  lemma ClauseIs(line: DialogueLine, words: string, lips: string, across: string, broken: string)
    requires words == " " + (if line.voiceover then VOICEOVER_PHRASE else "says") + ": "
    requires lips == (if line.voiceover then LIPS_CLOSED else "") && across == (if line.continuesAcrossCut then CONTINUES else "")
    requires broken == if line.truncatedByEnd then CUT_OFF else ""
    ensures DialogueClause(line)
            == (Lead(line) + words) + DIALOGUE_OPEN + (Spoken(line) + DIALOGUE_CLOSE + (lips + (across + broken)))
  {
    hide Lead, Spoken, VOICEOVER_PHRASE, LIPS_CLOSED, CONTINUES, CUT_OFF;
    Reassociated(Lead(line), " ", if line.voiceover then VOICEOVER_PHRASE else "says", ": ", DIALOGUE_OPEN, Spoken(line), DIALOGUE_CLOSE,
                 lips, across, broken);
  }

  lemma Reassociated(l: string, sp: string, v: string, c: string, o: string, s: string, z: string, x: string, y: string, w: string)
    ensures l + sp + v + c + (o + s + z) + x + y + w == (l + (sp + v + c)) + o + (s + z + (x + (y + w)))
  {
  }

  /** The opening delimiter is found behind a lead and its verb. */
  lemma BeforeOpen(lead: string, words: string, rest: string)
    requires Quiet(lead) && words in {OFF_SCREEN, SAYS}
    ensures Find("<d>", (lead + words) + "<d>" + rest) == Some(|lead + words|)
  {
    assert '<' !in words;
    WordsDiffer();
    var n := lead + words;
    assert n != "" && n[|n| - 1] == ' ' by { assert n[|n| - 1] == words[|words| - 1]; }
    assert Quiet(n) by { QuietWith(lead, words); }
    hide OFF_SCREEN, SAYS;
    QuietThenOpen(n, rest);
  }

  lemma QuietWith(lead: string, words: string)
    requires Quiet(lead) && '<' !in words && words != "" && words[0] == ' '
    ensures Quiet(lead + words)
  {
    hide Contains;
    var rest := words[1..];
    AnglelessIsQuiet(rest);
    FreeAcross(DIALOGUE_OPEN, lead, " ", rest);
    assert lead + " " + rest == lead + words;
  }

  lemma QuietThenOpen(n: string, rest: string)
    requires Quiet(n) && n != "" && n[|n| - 1] == ' '
    ensures Find("<d>", n + "<d>" + rest) == Some(|n|)
  {
    var s := n + "<d>" + rest;
    forall j: nat | j < |n| ensures !Occurs("<d>", s, j) {
      if Occurs("<d>", s, j) { OpenEarlier(n, "<d>" + rest, j); }
    }
    assert s[|n|..|n| + 3] == "<d>";
    FindIsFirst("<d>", s, |n|);
  }

  lemma OpenEarlier(n: string, rest: string, j: nat)
    requires j < |n| && n[|n| - 1] == ' ' && Occurs("<d>", n + rest, j)
    ensures Contains(n, "<d>")
  {
    var s := n + rest;
    assert s[j..j + 3] == "<d>";
    assert s[j] == '<' && s[j + 1] == 'd' by { assert s[j] == s[j..j + 3][0] && s[j + 1] == s[j..j + 3][1]; }
    assert s[|n| - 1] == ' ';
    assert j + 2 < |n|;
    assert n[j..j + 3] == s[j..j + 3];
    assert Occurs("<d>", n, j);
  }

  lemma UtteranceReads(before: string, content: string, after: string)
    requires Find("<d>", before + "<d>" + (content + "</d>" + after)) == Some(|before|) && !Contains(content, "</d>")
    ensures var lead, tail := ReadLead(before), ReadTail(after);
      ReadClause(before + "<d>" + (content + "</d>" + after))
      == if lead.Some? && tail.Some? && lead.value.1 == tail.value.0
         then Some(Heard(lead.value.0, lead.value.1, content, tail.value.1, tail.value.2)) else None
  {
    hide ReadLead, ReadTail, Find, Contains;
    var inner := content + "</d>" + after;
    var s := before + "<d>" + inner;
    assert s[..|before|] == before && s[|before| + 3..] == inner;
    ClosesAt(content, after);
    assert inner[..|content|] == content && inner[|content| + 4..] == after;
  }

  // ---------------------------------------------------------------- shot header

  function ReadNumber(s: string): Option<nat> {
    if "[Shot " <= s then Value(Run(s[6..])) else None
  }

  /** The cut time a shot opens with, in milliseconds. */
  function ReadCut(s: string): Option<nat> {
    match After("] At ", s)
    case None => None
    case Some(a) =>
      match Find(",", a)
      case None => None
      case Some(i) => ParseCutTime(a[..i])
  }

  /** What the text of a shot is to begin with. */
  function Beginning(shot: Shot, isOpening: bool): string
    requires ValidShot(shot) && (isOpening || shot.cutAt.Some?)
  {
    "[Shot " + Digits(shot.number) + "] "
    + (if isOpening then (if shot.style.GetOr("") != "" then shot.style.value + ", " else "")
       else "At " + FormatCutTime(shot.cutAt.value) + ", " + (if shot.cutPhrase.GetOr("") != "" then shot.cutPhrase.value + " " else ""))
    + shot.description
  }

  lemma {:induction false} JoinBegins(sep: string, front: seq<string>, rest: seq<string>)
    requires front != []
    ensures Join(sep, front) <= Join(sep, front + rest)
  {
    if |front| == 1 {
      assert (front + rest)[0] == front[0];
      if rest != [] { JoinCons(sep, front[0], rest); assert front + rest == [front[0]] + rest; } else { assert front + rest == front; }
    } else {
      assert (front + rest)[1..] == front[1..] + rest;
      JoinBegins(sep, front[1..], rest);
      PrefixMore(front[0] + sep, Join(sep, front[1..]), Join(sep, front[1..] + rest));
    }
  }

  lemma PrefixMore(a: string, b: string, c: string)
    requires b <= c
    ensures a + b <= a + c
  {
    assert (a + c)[..|a + b|] == a + b;
  }

  lemma OpeningJoined(shot: Shot, isOpening: bool)
    requires ValidShot(shot) && (isOpening || shot.cutAt.Some?)
    ensures Join(" ", Opening(shot, isOpening)) == Beginning(shot, isOpening)
  {
    hide IsLabel, ValidLine, Join, Digits, FormatCutTime;
    var n, d := Digits(shot.number), shot.description;
    var head := "[Shot " + n + "]";
    assert "] " == "]" + " " && ", " == "," + " ";
    assert head + " " == "[Shot " + n + "] ";
    if isOpening {
      if shot.style.GetOr("") != "" {
        assert Opening(shot, isOpening) == [head, shot.style.value + ",", d];
        JoinThree(" ", head, shot.style.value + ",", d);
        assert shot.style.value + "," + " " == shot.style.value + ", ";
      } else {
        assert Opening(shot, isOpening) == [head] + [d];
        JoinCons(" ", head, [d]);
        JoinOne(" ", d);
      }
    } else {
      var at := "At " + FormatCutTime(shot.cutAt.value);
      assert at + "," + " " == at + ", ";
      if shot.cutPhrase.GetOr("") != "" {
        assert Opening(shot, isOpening) == [head] + [at + ",", shot.cutPhrase.value, d];
        JoinCons(" ", head, [at + ",", shot.cutPhrase.value, d]);
        JoinThree(" ", at + ",", shot.cutPhrase.value, d);
      } else {
        assert Opening(shot, isOpening) == [head, at + ",", d];
        JoinThree(" ", head, at + ",", d);
      }
    }
  }

  lemma NumberIsRead(t: string, n: nat, rest: string)
    requires t == "[Shot " + (Digits(n) + ("] " + rest))
    ensures ReadNumber(t) == Some(n)
  {
    NumberReads(n, "] " + rest);
    assert t[6..] == Digits(n) + ("] " + rest);
  }

  lemma CutIsRead(t: string, n: nat, seconds: real, rest: string)
    requires seconds >= 0.0 && t == ("[Shot " + Digits(n)) + "] At " + (FormatCutTime(seconds) + "," + rest)
    ensures ReadCut(t) == Some(Milliseconds(seconds))
  {
    hide FormatCutTime, ParseCutTime, Milliseconds, Digits;
    var time := FormatCutTime(seconds);
    CutTimeRoundTrip(seconds);
    NumeralsHold(n, ']');
    AfterFinds("] At ", "[Shot " + Digits(n), time + "," + rest);
    NoComma(seconds);
    AfterFinds(",", time, rest);
    var a := time + "," + rest;
    assert Find(",", a) == Some(|time|) by { FindsComma(time, rest); }
    assert a[..|time|] == time;
  }

  lemma NoComma(seconds: real)
    requires seconds >= 0.0
    ensures ',' !in FormatCutTime(seconds)
  {
    hide Padded, Milliseconds;
  }

  lemma FindsComma(time: string, rest: string)
    requires ',' !in time
    ensures Find(",", time + "," + rest) == Some(|time|)
  {
    var a := time + "," + rest;
    assert a[|time|..|time| + 1] == ",";
    forall j: nat | j < |time| ensures !Occurs(",", a, j) {
      if Occurs(",", a, j) { FirstCharacter(",", a, j); }
    }
    FindIsFirst(",", a, |time|);
  }

  /** The text of a shot opens with its number, which reads back, then the style or the cut time,
      which reads back to the millisecond, and the cut phrase, and then the description. */
  lemma ShotOpens(shot: Shot, isOpening: bool)
    requires ValidShot(shot) && ShotText(shot, isOpening).Ok?
    ensures isOpening || shot.cutAt.Some?
    ensures var t := ShotText(shot, isOpening).value;
      && Beginning(shot, isOpening) <= t && ReadNumber(t) == Some(shot.number)
      && (!isOpening ==> ReadCut(t) == Some(Milliseconds(shot.cutAt.value)))
  {
    hide Join, CameraSentence, ScreenClause, DialogueClause, Opening, Digits, FormatCutTime, ReadNumber, ReadCut, IsLabel, ValidLine,
         Beginning, Milliseconds;
    var t, opening := ShotText(shot, isOpening).value, Opening(shot, isOpening);
    var camera := CameraSentence(shot).value;
    OpeningJoined(shot, isOpening);
    var rest := Modifier(Some(camera)) + Modifier(Some(ScreenClause(shot))) + Clauses(shot.dialogue);
    assert ShotParts(shot, isOpening, camera) == opening + rest;
    OpeningSome(shot, isOpening);
    JoinBegins(" ", opening, rest);
    BeginningReads(shot, isOpening, t);
  }

  lemma OpeningSome(shot: Shot, isOpening: bool)
    requires ValidShot(shot) && (isOpening || shot.cutAt.Some?)
    ensures Opening(shot, isOpening) != []
  {
  }

  lemma BeginningReads(shot: Shot, isOpening: bool, t: string)
    requires ValidShot(shot) && (isOpening || shot.cutAt.Some?) && Beginning(shot, isOpening) <= t
    ensures ReadNumber(t) == Some(shot.number)
    ensures !isOpening ==> ReadCut(t) == Some(Milliseconds(shot.cutAt.value))
  {
    hide Digits, FormatCutTime, ReadNumber, ReadCut, IsLabel, ValidLine, Milliseconds;
    var n, b := Digits(shot.number), Beginning(shot, isOpening);
    var more := t[|b|..];
    assert t == b + more;
    var style := if shot.style.GetOr("") != "" then shot.style.value + ", " else "";
    var phrase := if shot.cutPhrase.GetOr("") != "" then shot.cutPhrase.value + " " else "";
    if isOpening {
      NumberIsRead(t, shot.number, style + shot.description + more);
    } else {
      var time := FormatCutTime(shot.cutAt.value);
      var tail := " " + phrase + shot.description + more;
      assert "] " + "At " == "] At " && ", " == "," + " ";
      Threaded("[Shot ", n, "] ", "At ", time, ",", " ", phrase, shot.description, more);
      NumberIsRead(t, shot.number, "At " + time + "," + tail);
      CutIsRead(t, shot.number, shot.cutAt.value, tail);
    }
  }

  lemma Threaded(h: string, n: string, b: string, at: string, time: string, c: string, sp: string, phrase: string, d: string, more: string)
    ensures var whole := h + n + b + (at + time + (c + sp) + phrase) + d + more;
      var tail := sp + phrase + d + more;
      whole == h + (n + (b + (at + time + c + tail))) == (h + n) + (b + at) + (time + c + tail)
  {
  }

  // --------------------------------------------------------------- visible text

  function Odds(parts: seq<string>): seq<string> {
    if |parts| < 2 then [] else [parts[1]] + Odds(parts[2..])
  }

  /** The texts between quotation marks. */
  function ReadScreen(s: string): seq<string> {
    Odds(Split(s, '"'))
  }

  lemma {:induction false} OddsCount(parts: seq<string>)
    ensures |Odds(parts)| == |parts| / 2
    decreases |parts|
  {
    if |parts| < 2 {
    } else {
      OddsCount(parts[2..]);
    }
  }

  lemma {:induction false} SplitCount(a: string, b: string, c: char)
    ensures |Split(a + b, c)| == |Split(a, c)| + |Split(b, c)| - 1
  {
    if a == "" {
      assert a + b == b;
    } else {
      assert (a + b)[1..] == a[1..] + b;
      SplitCount(a[1..], b, c);
    }
  }

  ghost predicate NoneQuotes(texts: seq<string>) {
    forall k | 0 <= k < |texts| :: '"' !in texts[k]
  }

  /** A text in quotation marks holds two of them, and more exactly when it holds its own. */
  lemma QuotedCount(t: string)
    ensures var n := |Split("\"" + t + "\"", '"')|; n >= 3 && (n == 3 <==> '"' !in t)
  {
    hide Split;
    SplitCount("\"" + t, "\"", '"');
    SplitCount("\"", t, '"');
    assert |Split("\"", '"')| == 2 by { OneMark(); }
    SplitCountsOne(t);
  }

  lemma OneMark()
    ensures |Split("\"", '"')| == 2
  {
    assert Split("", '"') == [""];
  }

  lemma {:induction false} SplitCountsOne(t: string)
    ensures |Split(t, '"')| == 1 <==> '"' !in t
  {
    if t == "" {
    } else {
      SplitCountsOne(t[1..]);
      assert t == [t[0]] + t[1..];
    }
  }

  lemma {:induction false} JoinedCount(texts: seq<string>)
    requires texts != []
    ensures var n := |Split(Join(" ", Quoted(texts)), '"')|;
      n >= 2 * |texts| + 1 && (n == 2 * |texts| + 1 <==> NoneQuotes(texts))
  {
    hide Split, NoneQuotes;
    var head, rest := "\"" + texts[0] + "\"", texts[1..];
    QuotedCount(texts[0]);
    NoneFirstQuotes(texts);
    if rest == [] {
      assert NoneQuotes([]) by { NothingQuotes(); }
      assert Join(" ", Quoted(texts)) == head;
    } else {
      JoinedCount(rest);
      assert Quoted(texts)[1..] == Quoted(rest);
      assert Join(" ", Quoted(texts)) == head + " " + Join(" ", Quoted(rest));
      SplitCount(head + " ", Join(" ", Quoted(rest)), '"');
      SplitCount(head, " ", '"');
      SplitCountsOne(" ");
    }
  }

  lemma NothingQuotes()
    ensures NoneQuotes([])
  {
  }

  lemma NoneFirstQuotes(texts: seq<string>)
    requires texts != []
    ensures NoneQuotes(texts) <==> '"' !in texts[0] && NoneQuotes(texts[1..])
  {
    assert forall k | 0 <= k < |texts[1..]| :: texts[1..][k] == texts[k + 1];
  }

  lemma FirstQuoted(pre: string, t: string, after: string)
    requires '"' !in pre && '"' !in t
    ensures ReadScreen(pre + ("\"" + t + "\"") + after) == [t] + ReadScreen(after)
  {
    SplitHead(pre, '"', t + ['"'] + after);
    SplitHead(t, '"', after);
    hide Split;
    assert pre + ("\"" + t + "\"") + after == pre + ['"'] + (t + ['"'] + after);
    var rest := Split(after, '"');
    assert ([pre] + ([t] + rest))[1] == t && ([pre] + ([t] + rest))[2..] == rest;
  }

  lemma NothingQuoted(s: string)
    requires '"' !in s
    ensures ReadScreen(s) == []
  {
    SplitFree(s, '"');
  }

  lemma {:induction false} QuotedReads(pre: string, texts: seq<string>, end: string)
    requires texts != [] && NoneQuotes(texts) && '"' !in pre && '"' !in end
    ensures ReadScreen(pre + Join(" ", Quoted(texts)) + end) == texts
    decreases |texts|
  {
    hide ReadScreen, NoneQuotes;
    NoneFirstQuotes(texts);
    var t, rest := texts[0], texts[1..];
    var quoted := "\"" + t + "\"";
    if rest == [] {
      assert Join(" ", Quoted(texts)) == quoted;
      FirstQuoted(pre, t, end);
      NothingQuoted(end);
      assert texts == [t] + [];
    } else {
      assert Quoted(texts)[1..] == Quoted(rest);
      var after := " " + Join(" ", Quoted(rest)) + end;
      assert pre + Join(" ", Quoted(texts)) + end == pre + quoted + after;
      QuotedReads(" ", rest, end);
      FirstQuoted(pre, t, after);
      assert texts == [t] + rest;
    }
  }

  /** The visible texts of a shot read back from between the quotation marks of its clause, in
      order, exactly when none of them holds one. */
  lemma ScreenReadsBack(shot: Shot)
    ensures ReadScreen(ScreenClause(shot)) == shot.onScreenText <==> NoneQuotes(shot.onScreenText)
  {
    var texts := shot.onScreenText;
    if texts == [] {
      assert Split("", '"') == [""];
    } else {
      hide Split;
      var lead := "On-screen text reads ";
      assert '"' !in lead;
      if NoneQuotes(texts) {
        QuotedReads(lead, texts, ".");
      } else {
        JoinedCount(texts);
        SplitCount(lead + Join(" ", Quoted(texts)), ".", '"');
        SplitCount(lead, Join(" ", Quoted(texts)), '"');
        SplitCountsOne(lead);
        SplitCountsOne(".");
        OddsCount(Split(ScreenClause(shot), '"'));
      }
    }
  }
}
