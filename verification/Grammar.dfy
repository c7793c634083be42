/** The pinned grammar: closed vocabularies, structural tokens and character classes. */
module Grammar {
  import opened Prelude
  import opened Text

  // ------------------------------------------------------------- characters

  /** Python's `str.isdecimal` set at Unicode 14, which the pattern `\d` uses. */
  predicate IsDecimalDigit(c: char) {
    var n := c as int;
    || 0x30 <= n <= 0x39 || 0x660 <= n <= 0x669 || 0x6F0 <= n <= 0x6F9 || 0x7C0 <= n <= 0x7C9
    || 0x966 <= n <= 0x96F || 0x9E6 <= n <= 0x9EF || 0xA66 <= n <= 0xA6F || 0xAE6 <= n <= 0xAEF
    || 0xB66 <= n <= 0xB6F || 0xBE6 <= n <= 0xBEF || 0xC66 <= n <= 0xC6F || 0xCE6 <= n <= 0xCEF
    || 0xD66 <= n <= 0xD6F || 0xDE6 <= n <= 0xDEF || 0xE50 <= n <= 0xE59 || 0xED0 <= n <= 0xED9
    || 0xF20 <= n <= 0xF29 || 0x1040 <= n <= 0x1049 || 0x1090 <= n <= 0x1099 || 0x17E0 <= n <= 0x17E9
    || 0x1810 <= n <= 0x1819 || 0x1946 <= n <= 0x194F || 0x19D0 <= n <= 0x19D9 || 0x1A80 <= n <= 0x1A89
    || 0x1A90 <= n <= 0x1A99 || 0x1B50 <= n <= 0x1B59 || 0x1BB0 <= n <= 0x1BB9 || 0x1C40 <= n <= 0x1C49
    || 0x1C50 <= n <= 0x1C59 || 0xA620 <= n <= 0xA629 || 0xA8D0 <= n <= 0xA8D9 || 0xA900 <= n <= 0xA909
    || 0xA9D0 <= n <= 0xA9D9 || 0xA9F0 <= n <= 0xA9F9 || 0xAA50 <= n <= 0xAA59 || 0xABF0 <= n <= 0xABF9
    || 0xFF10 <= n <= 0xFF19 || 0x104A0 <= n <= 0x104A9 || 0x10D30 <= n <= 0x10D39
    || 0x11066 <= n <= 0x1106F || 0x110F0 <= n <= 0x110F9 || 0x11136 <= n <= 0x1113F
    || 0x111D0 <= n <= 0x111D9 || 0x112F0 <= n <= 0x112F9 || 0x11450 <= n <= 0x11459
    || 0x114D0 <= n <= 0x114D9 || 0x11650 <= n <= 0x11659 || 0x116C0 <= n <= 0x116C9
    || 0x11730 <= n <= 0x11739 || 0x118E0 <= n <= 0x118E9 || 0x11950 <= n <= 0x11959
    || 0x11C50 <= n <= 0x11C59 || 0x11D50 <= n <= 0x11D59 || 0x11DA0 <= n <= 0x11DA9
    || 0x16A60 <= n <= 0x16A69 || 0x16AC0 <= n <= 0x16AC9 || 0x16B50 <= n <= 0x16B59
    || 0x1D7CE <= n <= 0x1D7FF || 0x1E140 <= n <= 0x1E149 || 0x1E2F0 <= n <= 0x1E2F9
    || 0x1E950 <= n <= 0x1E959 || 0x1FBF0 <= n <= 0x1FBF9
  }

  /** Python's `str.isdigit` set at Unicode 14. */
  predicate IsDigit(c: char) {
    var n := c as int;
    || IsDecimalDigit(c)
    || 0xB2 <= n <= 0xB3 || n == 0xB9 || 0x1369 <= n <= 0x1371 || n == 0x19DA || n == 0x2070
    || 0x2074 <= n <= 0x2079 || 0x2080 <= n <= 0x2089 || 0x2460 <= n <= 0x2468 || 0x2474 <= n <= 0x247C
    || 0x2488 <= n <= 0x2490 || n == 0x24EA || 0x24F5 <= n <= 0x24FD || n == 0x24FF
    || 0x2776 <= n <= 0x277E || 0x2780 <= n <= 0x2788 || 0x278A <= n <= 0x2792 || 0x10A40 <= n <= 0x10A43
    || 0x10E60 <= n <= 0x10E68 || 0x11052 <= n <= 0x1105A || 0x1F100 <= n <= 0x1F10A
  }

  // ----------------------------------------------------------------- tables

  datatype Mode = T2VA | I2VA | FL2VA | L2VA | Ref2VA

  const ALL_MODES: set<Mode> := {T2VA, I2VA, FL2VA, L2VA, Ref2VA}
  const REFERENCE_MODE: set<Mode> := {Ref2VA}

  function ModeName(m: Mode): string {
    match m
    case T2VA => "T2VA"
    case I2VA => "I2VA"
    case FL2VA => "FL2VA"
    case L2VA => "L2VA"
    case Ref2VA => "Ref2VA"
  }

  function ModeOf(name: string): (m: Option<Mode>)
    ensures m.Some? ==> ModeName(m.value) == name
    ensures m.None? ==> forall k :: ModeName(k) != name
  {
    if name == "T2VA" then Some(T2VA)
    else if name == "I2VA" then Some(I2VA)
    else if name == "FL2VA" then Some(FL2VA)
    else if name == "L2VA" then Some(L2VA)
    else if name == "Ref2VA" then Some(Ref2VA)
    else None
  }

  /** Text that no delimiter can begin in. */
  type Plain = s: string | '<' !in s witness ""

  datatype CameraMotion = CameraMotion(name: string, phrase: Plain)

  const FORWARD_MOTIONS: seq<CameraMotion> := [
    CameraMotion("Zoom In", "zooms in"),
    CameraMotion("Zoom Out", "zooms out"),
    CameraMotion("Push In", "pushes in"),
    CameraMotion("Pull Out", "pulls out")
  ]

  const SIDEWAYS_MOTIONS: seq<CameraMotion> := [
    CameraMotion("Pan Left", "pans left"),
    CameraMotion("Pan Right", "pans right"),
    CameraMotion("Truck Left", "trucks left"),
    CameraMotion("Truck Right", "trucks right")
  ]

  const VERTICAL_MOTIONS: seq<CameraMotion> := [
    CameraMotion("Tilt Up", "tilts up"),
    CameraMotion("Tilt Down", "tilts down"),
    CameraMotion("Pedestal Up", "pedestals up"),
    CameraMotion("Pedestal Down", "pedestals down")
  ]

  const FOLLOWING_MOTIONS: seq<CameraMotion> := [
    CameraMotion("Arc Shot", "arcs around the subject"),
    CameraMotion("Tracking Shot", "tracks the subject"),
    CameraMotion("Static Shot", "holds a static shot"),
    CameraMotion("Shake Slightly", "shakes slightly")
  ]

  const HANDLING_MOTIONS: seq<CameraMotion> := [
    CameraMotion("Shake Strongly", "shakes strongly"),
    CameraMotion("POV", "shows the subject's point of view"),
    CameraMotion("Roll Clockwise", "rolls clockwise"),
    CameraMotion("Roll Counterclockwise", "rolls counterclockwise")
  ]

  const CAMERA_MOTIONS: seq<CameraMotion> :=
    FORWARD_MOTIONS + SIDEWAYS_MOTIONS + VERTICAL_MOTIONS + FOLLOWING_MOTIONS + HANDLING_MOTIONS

  /** The prose form of a motion; the last entry of a name would win, and names are distinct. */
  function MotionPhrase(motion: string): Option<Plain> {
    PhraseAmong(CAMERA_MOTIONS, motion)
  }

  function PhraseAmong(table: seq<CameraMotion>, motion: string): Option<Plain> {
    if table == [] then None
    else if table[|table| - 1].name == motion then Some(table[|table| - 1].phrase)
    else PhraseAmong(table[..|table| - 1], motion)
  }

  /** The motion vocabulary is the name column of the phrase table. */
  predicate MotionPermitted(motion: string) {
    exists k | 0 <= k < |CAMERA_MOTIONS| :: CAMERA_MOTIONS[k].name == motion
  }

  lemma {:induction false} PhraseAmongExact(table: seq<CameraMotion>, motion: string)
    ensures PhraseAmong(table, motion).Some? <==> exists k | 0 <= k < |table| :: table[k].name == motion
    ensures PhraseAmong(table, motion).Some? ==> exists k | 0 <= k < |table| ::
              table[k] == CameraMotion(motion, PhraseAmong(table, motion).value)
  {
    if table == [] {
    } else {
      var n := |table| - 1;
      PhraseAmongExact(table[..n], motion);
      assert table[n] == CameraMotion(table[n].name, table[n].phrase);
      assert forall k | 0 <= k < n :: table[..n][k] == table[k];
    }
  }

  const CAMERA_AMPLITUDES: seq<Plain> := ["with small amplitude", "with large amplitude"]
  const CAMERA_SPEEDS: seq<Plain> := ["at slow speed", "at fast speed"]
  const CUT_PHRASES: seq<Plain> := [
    "the camera cuts to", "the shot cuts to", "the shot transitions to", "the shot changes to",
    "the shot switches to"
  ]
  const VISUAL_RETENTION_MARKERS: seq<Plain> := [
    "fully_preserved", "partially_preserved", "attribute_transfer", "weak_reference"
  ]
  const AUDIO_RETENTION_MARKERS: seq<Plain> := ["fully_copy", "partially_copy", "reference", "weak_reference"]
  const TASK_TYPES: seq<Plain> := [
    "keyframe completion", "reference generation", "video editing", "video continuation",
    "audio reuse", "audio reference"
  ]
  const VISUAL_STYLES: seq<Plain> := [
    "Cinematic", "live-action", "2D-animated", "3D CG", "claymation", "watercolor", "vintage film"
  ]

  const VOICEOVER_PHRASE: string := "says in an off-screen voiceover"
  const DIALOGUE_OPEN: string := "<d>"
  const DIALOGUE_CLOSE: string := "</d>"
  const SCENE_TRANSITION_MARKER: string := "<scenetrans>"
  const CUTOFF_MARKER: string := "<cutoff>"
  const FORBIDDEN_MARKERS: seq<string> := [DIALOGUE_OPEN, DIALOGUE_CLOSE, SCENE_TRANSITION_MARKER, CUTOFF_MARKER]
  const REFERENCE_LABEL_KINDS: seq<string> := ["Subject", "Picture", "Video", "Audio"]
  const REFERENCE_SECTIONS: seq<string> := [
    "subject_definitions", "summary", "retention_analysis", "detailed_description",
    "overall_soundscape", "non_diegetic_music"
  ]
  const SECTION_NAMES: seq<string> := ["integrated_multimodal_description"] + REFERENCE_SECTIONS

  // ----------------------------------------------------------------- tokens

  /** The pattern `\s*\d+` against a whole text. */
  predicate SpacesThenDigits(t: string) {
    t != "" && if IsSpace(t[0]) then SpacesThenDigits(t[1..]) else forall c | c in t :: IsDecimalDigit(c)
  }

  predicate Bracketing(t: string, open: string, close: char) {
    && |open| + 1 < |t| && open <= t && t[|t| - 1] == close
    && SpacesThenDigits(t[|open|..|t| - 1])
  }

  predicate IsShotHeader(t: string) {
    Bracketing(t, "[Shot", ']')
  }

  predicate IsReferenceLabel(t: string) {
    exists k | 0 <= k < |REFERENCE_LABEL_KINDS| :: Bracketing(t, "<" + REFERENCE_LABEL_KINDS[k], '>')
  }

  predicate IsSectionOpener(t: string) {
    exists k | 0 <= k < |SECTION_NAMES| :: t == SECTION_NAMES[k] + ":"
  }

  predicate IsMarker(t: string) {
    exists k | 0 <= k < |FORBIDDEN_MARKERS| :: t == FORBIDDEN_MARKERS[k]
  }

  predicate IsControl(c: char) {
    c as int <= 0x1F || c as int == 0x7F
  }

  /** A text that acts as structure in a prompt. */
  predicate IsToken(t: string) {
    IsMarker(t) || IsReferenceLabel(t) || IsShotHeader(t) || IsSectionOpener(t)
  }
}
