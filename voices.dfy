/**
 * Voice resolution: the constant table of speech voices keyed by language
 * code and by the gender the user picks, the clamp of a detected language
 * onto the table's keys, and the lookup of the voice identifier.
 */
module Voices {

  /** The two options of the gender radio button. */
  datatype Gender = Female | Male

  /** The label the radio button returns for each option, used as the inner key. */
  function GenderKey(g: Gender): string {
    match g
    case Female => "Female"
    case Male => "Male"
  }

  /** The voice table: language code, then gender label, to a voice identifier. */
  const VoiceMap: map<string, map<string, string>> := map[
    "he" := map["Female" := "he-IL-HilaNeural", "Male" := "he-IL-AvriNeural"],
    "en" := map["Female" := "en-US-EmmaNeural", "Male" := "en-US-GuyNeural"]
  ]

  /** The language used when detection names one the table does not hold. */
  const DefaultLang: string := "en"

  /** Every voice identifier the table holds. */
  const VoiceIds: set<string> :=
    {"he-IL-HilaNeural", "he-IL-AvriNeural", "en-US-EmmaNeural", "en-US-GuyNeural"}

  /**
   * `lang if lang in VOICE_MAP else "en"`: the detected code is kept exactly
   * when it is Hebrew or English, and every other code falls back to English.
   */
  function SupportedLang(lang: string): (r: string)
    ensures r in VoiceMap
    ensures r == lang <==> lang == "he" || lang == "en"
    ensures r != lang ==> r == DefaultLang
  {
    if lang in VoiceMap then lang else DefaultLang
  }

  /**
   * `VOICE_MAP[supported_lang][gender]`: the lookup is defined for every key
   * of the table and either gender, yields one of the four identifiers, and
   * the identifier's locale prefix is the language code.
   */
  function SelectVoice(lang: string, g: Gender): (v: string)
    requires lang in VoiceMap
    ensures v in VoiceIds
    ensures |lang| < |v| && v[..|lang|] == lang
  {
    VoiceMap[lang][GenderKey(g)]
  }

  /** Different (language, gender) pairs never share a voice. */
  lemma SelectVoiceInjective(lang1: string, g1: Gender, lang2: string, g2: Gender)
    requires lang1 in VoiceMap && lang2 in VoiceMap
    requires SelectVoice(lang1, g1) == SelectVoice(lang2, g2)
    ensures lang1 == lang2 && g1 == g2
  {
  }

  /** Every voice of the table is reached by some (language, gender) pair. */
  lemma SelectVoiceOnto(v: string)
    requires v in VoiceIds
    ensures exists lang, g :: lang in VoiceMap && SelectVoice(lang, g) == v
  {
    if v == "he-IL-HilaNeural" {
      assert SelectVoice("he", Female) == v;
    } else if v == "he-IL-AvriNeural" {
      assert SelectVoice("he", Male) == v;
    } else if v == "en-US-EmmaNeural" {
      assert SelectVoice("en", Female) == v;
    } else {
      assert SelectVoice("en", Male) == v;
    }
  }
}
