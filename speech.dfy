/**
 * Speech result normalisation (SpeechClient.cs): how a recogniser result
 * becomes the transcript string the relay inspects, the number clean-up
 * applied to recognised text, the success rule of speech synthesis, and
 * the file naming and file steps around recognition. The recogniser,
 * the synthesiser and the audio codecs themselves are inputs.
 */
module Speech {

  import Strings

  /** ResultReason of a recognition, with the cancellation details the source prints. */
  datatype Recognition =
    | RecognizedSpeech(text: string)
    | NoMatch
    | Canceled(reason: string, errorCode: string, errorDetails: string)
    | OtherRecognition

  /** ResultReason of a synthesis. */
  datatype Synthesis = SynthesizingAudioCompleted | SynthesisCanceled | OtherSynthesis

  const NoMatchText := "NOMATCH"
  const CanceledPrefix := "CANCELED"

  /**
   * WrittenNroToDigit: "Um." becomes "1"; text that is digits once its
   * dots are dropped loses its dots; anything else is kept.
   */
  function WrittenNroToDigit(inline: string): (r: string)
    ensures Strings.AllDecimalDigits(r) || r == inline
    ensures '.' in r ==> r == inline
  {
    if inline == "Um." then
      assert Strings.DecimalDigitZeros[0] <= '1' as int < Strings.DecimalDigitZeros[0] + 10;
      "1"
    else if Strings.AllDecimalDigits(Strings.Replace(inline, ".", "")) then
      Strings.ReplaceCharByEmpty(inline, '.');
      Strings.Replace(inline, ".", "")
    else inline
  }

  /** Normalising twice is normalising once. */
  lemma WrittenNroToDigitIdempotent(inline: string)
    ensures WrittenNroToDigit(WrittenNroToDigit(inline)) == WrittenNroToDigit(inline)
  {
    var r := WrittenNroToDigit(inline);
    Strings.ReplaceCharByEmpty(r, '.');
    if r != inline {
      assert '.' !in r;
      RemoveAbsentChar(r, '.');
      assert r != "Um.";
    } else if inline != "Um." {
      Strings.ReplaceCharByEmpty(inline, '.');
    }
  }

  lemma {:induction false} RemoveAbsentChar(s: string, c: char)
    requires c !in s
    ensures Strings.RemoveChar(s, c) == s
  {
    if s != [] {
      assert c !in s[1..];
      RemoveAbsentChar(s[1..], c);
      assert s == [s[0]] + s[1..];
    }
  }

  /**
   * "Um." reads as 1; a dotted numeral such as "1.234." reads as its
   * digits, and so does one in another script ("٣." is "٣"); a word keeps
   * its dot.
   */
  lemma WrittenNroToDigitExamples()
    ensures WrittenNroToDigit("Um.") == "1"
    ensures WrittenNroToDigit("1.234.") == "1234"
    ensures WrittenNroToDigit("\U{0663}.") == "\U{0663}"
    ensures WrittenNroToDigit("Oi.") == "Oi."
    ensures WrittenNroToDigit("") == ""
  {
    DottedDigits();
    assert Strings.AllDigits("1234");
    Strings.AsciiDigitsAreDecimal("1234");
    ArabicIndicThree();
    WordKeepsDot();
    Strings.ReplaceCharByEmpty("", '.');
  }

  lemma ArabicIndicThree()
    ensures WrittenNroToDigit("\U{0663}.") == "\U{0663}"
  {
    var s := "\U{0663}.";
    Strings.ReplaceCharByEmpty(s, '.');
    assert Strings.RemoveChar(".", '.') == "";
    assert Strings.RemoveChar(s, '.') == "\U{0663}";
    assert Strings.DecimalDigitZeros[1] <= '\U{0663}' as int < Strings.DecimalDigitZeros[1] + 10;
  }

  lemma WordKeepsDot()
    ensures WrittenNroToDigit("Oi.") == "Oi."
  {
    var s := "Oi.";
    Strings.ReplaceCharByEmpty(s, '.');
    assert Strings.RemoveChar(".", '.') == "";
    assert Strings.RemoveChar("i.", '.') == "i";
    assert Strings.RemoveChar(s, '.') == "Oi";
    assert !Strings.IsDecimalDigit('O');
  }

  lemma DottedDigits()
    ensures Strings.Replace("1.234.", ".", "") == "1234"
  {
    var s := "1.234.";
    Strings.ReplaceCharByEmpty(s, '.');
    assert s == "1." + "234.";
    assert Strings.RemoveChar("4.", '.') == "4";
    assert Strings.RemoveChar("34.", '.') == "34";
    assert Strings.RemoveChar("234.", '.') == "234";
    assert Strings.RemoveChar(".234.", '.') == "234";
  }

  /** The string SpeechToTextAsync returns for a recognition result. */
  function TranscriptOf(result: Recognition): (r: string)
    ensures result.NoMatch? ==> r == NoMatchText
    ensures result.Canceled? ==> Strings.StartsWith(r, "CANCELED: Reason=")
    ensures result.OtherRecognition? ==> r == ""
  {
    match result
    case RecognizedSpeech(text) => WrittenNroToDigit(text)
    case NoMatch => NoMatchText
    case Canceled(reason, code, details) =>
      "CANCELED: Reason=" + reason + ", " + code + ", " + details
    case OtherRecognition => ""
  }

  /** The relay's test for a usable transcript: non-empty, not "NOMATCH", not starting "CANCELED". */
  predicate IsAccepted(transcript: string)
  {
    transcript != "" && transcript != NoMatchText && !Strings.StartsWith(transcript, CanceledPrefix)
  }

  /** Only recognised speech can yield an accepted transcript, and then it is the normalised text. */
  lemma AcceptedOnlyFromSpeech(result: Recognition)
    ensures IsAccepted(TranscriptOf(result)) ==>
      result.RecognizedSpeech? && TranscriptOf(result) == WrittenNroToDigit(result.text)
    ensures result.RecognizedSpeech? && IsAccepted(WrittenNroToDigit(result.text)) ==>
      IsAccepted(TranscriptOf(result))
  {
    if result.Canceled? {
      var t := TranscriptOf(result);
      assert t[..|CanceledPrefix|] == t[..|"CANCELED: Reason="|][..|CanceledPrefix|];
    }
  }

  /** Whether TextToSpeechAsync calls the synthesiser at all: only for non-empty text. */
  predicate Synthesizes(text: string)
  {
    text != ""
  }

  /** TextToSpeechAsync's result, given what the synthesiser would report for the text. */
  function SpeechSynthesized(text: string, reason: Synthesis): (ok: bool)
    ensures ok <==> Synthesizes(text) && reason.SynthesizingAudioCompleted?
  {
    if !Synthesizes(text) then false
    else if reason.SynthesizingAudioCompleted? then true
    else if reason.SynthesisCanceled? then false
    else false
  }

  /** The recorded voice note: mediaDir + "Audio_" + id + ".ogg". */
  function OggPath(mediaDir: string, voiceId: string): string
  {
    mediaDir + "Audio_" + voiceId + ".ogg"
  }

  /** The converted file: the ogg path with every ".ogg" replaced by ".wav". */
  function WavPath(oggPath: string): string
  {
    Strings.Replace(oggPath, ".ogg", ".wav")
  }

  /**
   * When ".ogg" does not occur in the directory and the id, the wav file
   * differs from the ogg file only in its extension.
   */
  lemma WavPathExtension(mediaDir: string, voiceId: string)
    requires !Strings.Contains(mediaDir + "Audio_" + voiceId, ".ogg")
    ensures WavPath(OggPath(mediaDir, voiceId)) == mediaDir + "Audio_" + voiceId + ".wav"
  {
    var stem := mediaDir + "Audio_" + voiceId;
    assert ".ogg"[1..] == "ogg";
    Strings.ReplaceBeforeSuffix(stem, ".ogg", ".wav");
  }

  /** The file steps of RecognizeOggStream. */
  datatype FileStep =
    | WriteFile(path: string)
    | DeleteFile(path: string)
    | ConvertOggToWav(source: string, target: string)
    | RecognizeFile(path: string)

  /** RecognizeOggStream's steps, given whether a wav file of that name already exists. */
  function RecognitionSteps(mediaDir: string, voiceId: string, wavExists: bool): seq<FileStep>
  {
    var ogg := OggPath(mediaDir, voiceId);
    var wav := WavPath(ogg);
    [WriteFile(ogg)] + (if wavExists then [DeleteFile(wav)] else []) + [ConvertOggToWav(ogg, wav), RecognizeFile(wav)]
  }

  /**
   * The voice note is saved first and recognised last; a stale wav file is
   * deleted exactly when one exists, and always before the conversion that
   * writes the new one.
   */
  lemma RecognitionStepsOrder(mediaDir: string, voiceId: string, wavExists: bool)
    ensures var steps := RecognitionSteps(mediaDir, voiceId, wavExists);
      var wav := WavPath(OggPath(mediaDir, voiceId));
      && steps[0] == WriteFile(OggPath(mediaDir, voiceId))
      && steps[|steps| - 1] == RecognizeFile(wav)
      && steps[|steps| - 2] == ConvertOggToWav(OggPath(mediaDir, voiceId), wav)
      && (DeleteFile(wav) in steps <==> wavExists)
      && (wavExists ==> steps[1] == DeleteFile(wav))
  {
  }
}
