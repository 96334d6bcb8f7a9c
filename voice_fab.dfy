/**
 * The voice button (components/VoiceFAB.tsx): the flags the component keeps
 * in refs and state, changed by one method per event (a button press, a
 * recogniser callback, a timer firing, a prop change), and the split of a
 * recognition event's results into final and interim text.
 *
 * Browser behaviour enters as parameters: whether a speech-recognition
 * constructor exists and whether the recogniser's `start()` throws.
 */
module VoiceFab {
  import opened Wrappers
  import opened Seqs
  import opened Strings

  /** One entry of `event.results`: its first alternative's text and whether it is final. */
  datatype SpeechResult = SpeechResult(isFinal: bool, transcript: string)

  /** The inactivity timer ref: no timer, a pending timer, or a timer that fired but was never cleared. */
  datatype Timer = Cleared | Armed | Expired

  /** The two errors after which the microphone is treated as unavailable. */
  predicate IsFatalError(error: string)
  {
    error == "not-allowed" || error == "service-not-allowed"
  }

  // ---------------------------------------------------------------- result split

  /** The final results' texts from index i on, concatenated in order. */
  function FinalText(results: seq<SpeechResult>, i: nat): string
    decreases |results| - i
  {
    if i >= |results| then ""
    else (if results[i].isFinal then results[i].transcript else "") + FinalText(results, i + 1)
  }

  /** The non-final results' texts from index i on, concatenated in order. */
  function InterimText(results: seq<SpeechResult>, i: nat): string
    decreases |results| - i
  {
    if i >= |results| then ""
    else (if results[i].isFinal then "" else results[i].transcript) + InterimText(results, i + 1)
  }

  /** The texts of a list of results, concatenated. */
  function Transcripts(results: seq<SpeechResult>): string
  {
    if results == [] then "" else results[0].transcript + Transcripts(results[1..])
  }

  function IsFinal(): SpeechResult -> bool
  {
    (r: SpeechResult) => r.isFinal
  }

  function IsInterim(): SpeechResult -> bool
  {
    (r: SpeechResult) => !r.isFinal
  }

  /**
   * The final text is the concatenation of the final results from
   * `resultIndex` on and the interim text that of the others; between them
   * they account for every character of those results.
   */
  lemma {:induction false} SplitSpec(results: seq<SpeechResult>, i: nat)
    requires i <= |results|
    ensures FinalText(results, i) == Transcripts(Filter(results[i..], IsFinal()))
    ensures InterimText(results, i) == Transcripts(Filter(results[i..], IsInterim()))
    ensures |FinalText(results, i)| + |InterimText(results, i)| == |Transcripts(results[i..])|
    decreases |results| - i
  {
    if i == |results| {
      assert results[i..] == [];
    } else {
      SplitSpec(results, i + 1);
      var rest := results[i + 1..];
      assert results[i..] == [results[i]] + rest;
      assert results[i..][1..] == rest;
      if results[i].isFinal {
        assert Filter(results[i..], IsFinal()) == [results[i]] + Filter(rest, IsFinal());
        assert Filter(results[i..], IsInterim()) == Filter(rest, IsInterim());
        assert ([results[i]] + Filter(rest, IsFinal()))[1..] == Filter(rest, IsFinal());
      } else {
        assert Filter(results[i..], IsFinal()) == Filter(rest, IsFinal());
        assert Filter(results[i..], IsInterim()) == [results[i]] + Filter(rest, IsInterim());
        assert ([results[i]] + Filter(rest, IsInterim()))[1..] == Filter(rest, IsInterim());
      }
    }
  }

  /** The `for` loop of `onresult`: final and interim text from `resultIndex` to the end. */
  method SplitResults(results: seq<SpeechResult>, resultIndex: nat) returns (finalTranscript: string, interim: string)
    ensures finalTranscript == FinalText(results, resultIndex)
    ensures interim == InterimText(results, resultIndex)
  {
    finalTranscript := "";
    interim := "";
    var i := resultIndex;
    while i < |results|
      invariant resultIndex <= i
      invariant finalTranscript + FinalText(results, i) == FinalText(results, resultIndex)
      invariant interim + InterimText(results, i) == InterimText(results, resultIndex)
      decreases |results| - i
    {
      var result := results[i];
      if result.isFinal {
        finalTranscript := finalTranscript + result.transcript;
      } else {
        interim := interim + result.transcript;
      }
      i := i + 1;
    }
  }

  // ---------------------------------------------------------------- the component

  class VoiceCapture {
    var isListening: bool
    var isSupported: bool
    var interimText: string
    /** recognitionRef.current is set. */
    var hasRecognizer: bool
    var shouldRestart: bool
    var wasListeningBeforeMute: bool
    var userActivated: bool
    var timer: Timer
    /** The 800 ms timer the mute effect schedules to restart listening. */
    var resumePending: bool

    /** Automatic restarts only happen while a recogniser is held. */
    predicate Valid()
      reads this
    {
      shouldRestart ==> hasRecognizer
    }

    /** What stopRecognition leaves behind. */
    predicate Stopped()
      reads this
    {
      !shouldRestart && timer == Cleared && !hasRecognizer && !isListening && interimText == ""
    }

    /**
     * The state startRecognition leaves, given the flags it found: without
     * the API only the button hides; otherwise a new recogniser is held,
     * and automatic restart is enabled when its `start()` returns, while a
     * `start()` that throws ends listening and leaves restart as it was.
     */
    predicate Started(apiAvailable: bool, startThrows: bool,
                      wasSupported: bool, hadRecognizer: bool, restartBefore: bool, listeningBefore: bool)
      reads this
    {
      if !apiAvailable then
        !isSupported && hasRecognizer == hadRecognizer && shouldRestart == restartBefore && isListening == listeningBefore
      else
        && isSupported == wasSupported && hasRecognizer
        && (if startThrows then shouldRestart == restartBefore && !isListening
            else shouldRestart && isListening == listeningBefore)
    }

    constructor()
      ensures !isListening && isSupported && interimText == "" && !hasRecognizer
      ensures !shouldRestart && !wasListeningBeforeMute && !userActivated
      ensures timer == Cleared && !resumePending
      ensures Valid()
    {
      isListening := false;
      isSupported := true;
      interimText := "";
      hasRecognizer := false;
      shouldRestart := false;
      wasListeningBeforeMute := false;
      userActivated := false;
      timer := Cleared;
      resumePending := false;
    }

    /** The mount effect: without a speech-recognition constructor the button hides. */
    method Mount(apiAvailable: bool)
      modifies this`isSupported
      ensures isSupported == (old(isSupported) && apiAvailable)
    {
      if !apiAvailable {
        isSupported := false;
      }
    }

    /** startRecognition: see Started. */
    method Start(apiAvailable: bool, startThrows: bool)
      requires Valid()
      modifies this`isSupported, this`hasRecognizer, this`shouldRestart, this`isListening
      ensures Started(apiAvailable, startThrows, old(isSupported), old(hasRecognizer), old(shouldRestart), old(isListening))
      ensures Valid()
    {
      if !apiAvailable {
        isSupported := false;
        return;
      }
      hasRecognizer := true;
      if startThrows {
        isListening := false;
      } else {
        shouldRestart := true;
      }
    }

    /** `onstart`: listening, with a fresh inactivity timer. */
    method OnStart()
      modifies this`isListening, this`timer
      ensures isListening && timer == Armed
    {
      isListening := true;
      timer := Armed;
    }

    /**
     * `onresult`: the interim text shows the non-final results; a final text
     * that is not blank after trimming is handed on (the return value) with
     * the inactivity timer re-armed and the interim text cleared.
     */
    method OnResult(results: seq<SpeechResult>, resultIndex: nat) returns (transcript: Option<string>)
      modifies this`interimText, this`timer
      ensures Trim(FinalText(results, resultIndex)) == "" ==>
        transcript.None? && interimText == InterimText(results, resultIndex) && timer == old(timer)
      ensures Trim(FinalText(results, resultIndex)) != "" ==>
        transcript == Some(Trim(FinalText(results, resultIndex))) && interimText == "" && timer == Armed
    {
      var finalTranscript, interim := SplitResults(results, resultIndex);
      interimText := interim;
      transcript := None;
      if Trim(finalTranscript) != "" {
        timer := Armed;
        transcript := Some(Trim(finalTranscript));
        interimText := "";
      }
    }

    /** `onerror`: a permission error hides the button and stops restarts; any other error changes nothing. */
    method OnError(error: string)
      requires Valid()
      modifies this`isSupported, this`shouldRestart, this`timer
      ensures IsFatalError(error) ==> !isSupported && !shouldRestart && timer == Cleared
      ensures !IsFatalError(error) ==>
        isSupported == old(isSupported) && shouldRestart == old(shouldRestart) && timer == old(timer)
      ensures Valid()
    {
      if IsFatalError(error) {
        isSupported := false;
        shouldRestart := false;
        timer := Cleared;
      }
    }

    /**
     * `onend`: with restart enabled the held recogniser is started again, and a
     * restart that throws ends listening and disables restart; without it,
     * listening ends and the timer is cleared.
     */
    method OnEnd(restartThrows: bool)
      requires Valid()
      modifies this`isListening, this`shouldRestart, this`timer
      ensures old(shouldRestart) && !restartThrows ==>
        isListening == old(isListening) && shouldRestart && timer == old(timer) && hasRecognizer
      ensures old(shouldRestart) && restartThrows ==> !isListening && !shouldRestart && timer == Cleared
      ensures !old(shouldRestart) ==> !isListening && !shouldRestart && timer == Cleared
      ensures Valid()
    {
      if shouldRestart {
        if restartThrows {
          isListening := false;
          shouldRestart := false;
          timer := Cleared;
        }
      } else {
        isListening := false;
        timer := Cleared;
      }
    }

    /** stopRecognition. */
    method Stop()
      modifies this`shouldRestart, this`timer, this`hasRecognizer, this`isListening, this`interimText
      ensures Stopped() && Valid()
    {
      shouldRestart := false;
      timer := Cleared;
      hasRecognizer := false;
      isListening := false;
      interimText := "";
    }

    /**
     * The inactivity timer firing: only while restart is enabled does it
     * stop listening and forget that the user switched the microphone on.
     */
    method InactivityTimeout()
      requires Valid() && timer == Armed
      modifies this`shouldRestart, this`hasRecognizer, this`isListening, this`interimText, this`userActivated, this`timer
      ensures timer == Expired
      ensures old(shouldRestart) ==>
        !shouldRestart && !hasRecognizer && !isListening && interimText == "" && !userActivated
      ensures !old(shouldRestart) ==>
        !shouldRestart && hasRecognizer == old(hasRecognizer) && isListening == old(isListening)
        && interimText == old(interimText) && userActivated == old(userActivated)
      ensures Valid()
    {
      timer := Expired;
      if shouldRestart {
        shouldRestart := false;
        hasRecognizer := false;
        isListening := false;
        interimText := "";
        userActivated := false;
      }
    }

    /** pauseListening: only when listening, remember it and stop. */
    method Pause()
      requires Valid()
      modifies this`wasListeningBeforeMute, this`shouldRestart, this`timer, this`hasRecognizer, this`isListening,
        this`interimText
      ensures old(isListening) ==> wasListeningBeforeMute && Stopped()
      ensures !old(isListening) ==>
        wasListeningBeforeMute == old(wasListeningBeforeMute) && shouldRestart == old(shouldRestart)
        && timer == old(timer) && hasRecognizer == old(hasRecognizer) && !isListening
        && interimText == old(interimText)
      ensures Valid()
    {
      if isListening {
        wasListeningBeforeMute := true;
        Stop();
      }
    }

    /**
     * resumeListening: start again only when listening was paused and the
     * user had switched the microphone on; the pause is forgotten either way.
     */
    method Resume(apiAvailable: bool, startThrows: bool)
      requires Valid()
      modifies this`wasListeningBeforeMute, this`isSupported, this`hasRecognizer, this`shouldRestart, this`isListening
      ensures !wasListeningBeforeMute
      ensures old(wasListeningBeforeMute) && userActivated ==>
        Started(apiAvailable, startThrows, old(isSupported), old(hasRecognizer), old(shouldRestart), old(isListening))
      ensures !(old(wasListeningBeforeMute) && userActivated) ==>
        isSupported == old(isSupported) && hasRecognizer == old(hasRecognizer)
        && shouldRestart == old(shouldRestart) && isListening == old(isListening)
      ensures Valid()
    {
      if wasListeningBeforeMute && userActivated {
        wasListeningBeforeMute := false;
        Start(apiAvailable, startThrows);
      } else {
        wasListeningBeforeMute := false;
      }
    }

    /**
     * One run of the mute effect with the current `isMuted`: the previous
     * run's pending resume is cancelled; muting while listening pauses, and
     * unmuting after such a pause, the microphone having been switched on
     * by the user, schedules a resume.
     */
    method MuteEffect(isMuted: bool)
      requires Valid()
      modifies this`resumePending, this`wasListeningBeforeMute, this`shouldRestart, this`timer, this`hasRecognizer,
        this`isListening, this`interimText
      ensures isMuted && old(isListening) ==> wasListeningBeforeMute && Stopped() && !resumePending
      ensures !isMuted && old(wasListeningBeforeMute) && userActivated ==>
        !wasListeningBeforeMute && resumePending && isListening == old(isListening)
        && shouldRestart == old(shouldRestart) && timer == old(timer) && hasRecognizer == old(hasRecognizer)
        && interimText == old(interimText)
      ensures !(isMuted && old(isListening)) && !(!isMuted && old(wasListeningBeforeMute) && userActivated) ==>
        !resumePending && wasListeningBeforeMute == old(wasListeningBeforeMute)
        && isListening == old(isListening) && shouldRestart == old(shouldRestart)
        && timer == old(timer) && hasRecognizer == old(hasRecognizer) && interimText == old(interimText)
      ensures Valid()
    {
      resumePending := false;
      if isMuted && isListening {
        wasListeningBeforeMute := true;
        Stop();
      } else if !isMuted && wasListeningBeforeMute && userActivated {
        wasListeningBeforeMute := false;
        resumePending := true;
      }
    }

    /** The mute effect's 800 ms timer firing: start listening again. */
    method ResumeDelayElapsed(apiAvailable: bool, startThrows: bool)
      requires Valid() && resumePending
      modifies this`resumePending, this`isSupported, this`hasRecognizer, this`shouldRestart, this`isListening
      ensures !resumePending
      ensures Started(apiAvailable, startThrows, old(isSupported), old(hasRecognizer), old(shouldRestart), old(isListening))
      ensures Valid()
    {
      resumePending := false;
      Start(apiAvailable, startThrows);
    }

    /** The button: stop (forgetting the user's switch-on) when listening, otherwise switch on and start. */
    method ToggleListening(apiAvailable: bool, startThrows: bool)
      requires Valid()
      modifies this`userActivated, this`isSupported, this`hasRecognizer, this`shouldRestart, this`isListening,
        this`timer, this`interimText
      ensures userActivated == !old(isListening)
      ensures old(isListening) ==> Stopped() && isSupported == old(isSupported)
      ensures !old(isListening) ==>
        && Started(apiAvailable, startThrows, old(isSupported), old(hasRecognizer), old(shouldRestart), old(isListening))
        && timer == old(timer) && interimText == old(interimText)
      ensures Valid()
    {
      if isListening {
        userActivated := false;
        Stop();
      } else {
        userActivated := true;
        Start(apiAvailable, startThrows);
      }
    }
  }
}
