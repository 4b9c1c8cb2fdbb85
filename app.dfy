/**
 * The script's top-level flow once a document is uploaded: assemble the
 * text, stop unless it holds something other than whitespace, detect its
 * language from a sample, pick a voice for the chosen gender, and, when the
 * user asks for it, synthesise the audio at the chosen rate. The PDF reader,
 * the language detector and the speech service are parameters.
 */
module App {
  import opened Wrappers
  import opened Text
  import opened Voices
  import opened Speed
  import opened Synthesis

  /** Where one run of the script ends. */
  datatype Outcome =
    | NoText                                                    // the guard failed; nothing else runs
    | DetectionFailed                                           // the detector raised
    | VoiceChosen(lang: string, voice: string)                  // ready, Generate not pressed
    | Generated(lang: string, voice: string, audio: seq<byte>)  // audio produced

  /**
   * One pass of the script. `pages` are the extracted page texts, `detect`
   * answers None when the detector raises, `gender` is the radio choice,
   * `speedPct` the slider value, `generate` whether the button was pressed and
   * `service` the chunks the speech service streams for (text, voice, rate).
   */
  method Convert(pages: seq<string>, detect: string -> Option<string>, gender: Gender,
                 speedPct: int, generate: bool, service: (string, string, string) -> seq<Chunk>)
    returns (o: Outcome)
    ensures o.NoText? <==> !HasContent(AssembleText(pages))
    ensures o.DetectionFailed? <==>
      HasContent(AssembleText(pages)) && detect(Sample(AssembleText(pages))).None?
    ensures (o.VoiceChosen? || o.Generated?) ==>
      && HasContent(AssembleText(pages))
      && detect(Sample(AssembleText(pages))) == Some(o.lang)
      && o.voice in VoiceIds
      && o.voice == SelectVoice(SupportedLang(o.lang), gender)
    ensures o.VoiceChosen? ==> !generate
    ensures o.Generated? ==> generate
    ensures o.Generated? ==>
      o.audio == AudioOf(service(AssembleText(pages), o.voice, SpeedString(speedPct)))
  {
    var speed := SpeedString(speedPct);
    var text := AssembleText(pages);
    if !HasContent(text) {
      return NoText;
    }
    var detected := detect(Sample(text));
    if detected.None? {
      return DetectionFailed;
    }
    var lang := detected.value;
    var supportedLang := SupportedLang(lang);
    var voice := SelectVoice(supportedLang, gender);
    if generate {
      var audio := GenerateAudio(text, voice, speed, service);
      o := Generated(lang, voice, audio);
    } else {
      o := VoiceChosen(lang, voice);
    }
  }
}
