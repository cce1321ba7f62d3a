/** `POST /api/events/batch`: counts the posted events (two signup forms each) and reports the
    counts back. */
module BatchRoute {
  import opened Wrappers
  import opened Strings
  import opened Json

  const FormsPerEvent: nat := 2
  const SuccessPrefix: string := "Successfully processed "
  const FailureMessage: string := "Failed to process events"

  /** `events.length` of the parsed body: arrays and strings have one (a string's counts
      UTF-16 code units); reading it from `null` throws; other values yield `undefined`. */
  function LengthOf(v: JsValue): Option<nat>
  {
    match v
    case Array(items) => Some(|items|)
    case Str(s) => Some(Utf16Length(s))
    case _ => None
  }

  /** The success message for a known event count. */
  function CountMessage(n: nat): string
  {
    SuccessPrefix + NatToString(n) + " event" + PluralSuffix(n) + " (" + NatToString(FormsPerEvent * n) + " signup forms)"
  }

  /** The success message when the body has no length: template literals render `undefined`
      and `NaN`, and the plural suffix is used since `undefined !== 1`. */
  const LengthlessMessage: string := SuccessPrefix + "undefined events (NaN signup forms)"

  /** The handler. `thrown` is the message of the error raised by an unreadable body. */
  function HandleBatch(body: Body, thrown: string): (resp: Response)
    ensures (body.Malformed? || PropertyAccessThrows(body.value)) ==>
              resp.status == 500 && BodyField(resp, "success") == Bool(false) &&
              BodyField(resp, "message") == Str(FailureMessage) && BodyField(resp, "error") == Str(thrown)
    ensures body.Parsed? && LengthOf(body.value).Some? ==>
              var n := LengthOf(body.value).value;
              && resp.status == 200
              && BodyField(resp, "success") == Bool(true)
              && BodyField(resp, "eventCount") == Number(n)
              && BodyField(resp, "formCount") == Number(2 * n)
              && BodyField(resp, "message") == Str(CountMessage(n))
    ensures body.Parsed? && !PropertyAccessThrows(body.value) && LengthOf(body.value).None? ==>
              && resp.status == 200
              && BodyField(resp, "success") == Bool(true)
              && BodyField(resp, "eventCount") == Undefined
              && BodyField(resp, "formCount") == Null
    ensures resp.status == 200 <==> BodyField(resp, "success") == Bool(true)
  {
    if body.Malformed? || PropertyAccessThrows(body.value) then
      Response(500, map["success" := Bool(false), "message" := Str(FailureMessage), "error" := Str(thrown)])
    else
      match LengthOf(body.value)
      case Some(n) =>
        Response(200, map["success" := Bool(true), "message" := Str(CountMessage(n)),
                          "eventCount" := Number(n), "formCount" := Number(FormsPerEvent * n)])
      case None =>
        Response(200, map["success" := Bool(true), "message" := Str(LengthlessMessage), "formCount" := Null])
  }

  /** The message states the event count: the digits after its fixed opening read back as the
      number of events, and the word is singular exactly for one event. */
  lemma MessageStatesCount(n: nat)
    ensures StartsWith(CountMessage(n), SuccessPrefix)
    ensures var afterPrefix := CountMessage(n)[|SuccessPrefix|..];
            && AllDigits(LeadingDigits(afterPrefix))
            && DigitsValue(LeadingDigits(afterPrefix)) == n
    ensures EndsWith(CountMessage(n), " signup forms)")
    ensures (CountMessage(n)[|SuccessPrefix| + |NatToString(n)|..][..7] == " events") <==> n != 1
  {
    MessageDigits(n);
    MessageEnding(n);
    MessageWord(n);
  }

  /** The words after the count. */
  function AfterCount(n: nat): string
  {
    " event" + PluralSuffix(n) + " (" + NatToString(FormsPerEvent * n) + " signup forms)"
  }

  lemma MessageSplits(n: nat)
    ensures CountMessage(n) == SuccessPrefix + (NatToString(n) + AfterCount(n))
    ensures CountMessage(n)[|SuccessPrefix|..] == NatToString(n) + AfterCount(n)
    ensures CountMessage(n)[|SuccessPrefix| + |NatToString(n)|..] == AfterCount(n)
  {
    Regroup(SuccessPrefix, NatToString(n), " event", PluralSuffix(n), " (", NatToString(FormsPerEvent * n), " signup forms)");
    DropJoined(SuccessPrefix, NatToString(n), AfterCount(n));
  }

  /** Dropping the first piece, or the first two, of a join leaves the rest. */
  lemma DropJoined(a: string, b: string, c: string)
    ensures (a + (b + c))[|a|..] == b + c
    ensures (a + (b + c))[|a| + |b|..] == c
  {
  }

  /** Seven pieces joined left to right, regrouped as the first, the second, and the rest. */
  lemma Regroup(a: string, b: string, c: string, d: string, e: string, f: string, g: string)
    ensures a + b + c + d + e + f + g == a + (b + (c + d + e + f + g))
  {
  }

  lemma MessageDigits(n: nat)
    ensures StartsWith(CountMessage(n), SuccessPrefix)
    ensures var afterPrefix := CountMessage(n)[|SuccessPrefix|..];
            && AllDigits(LeadingDigits(afterPrefix))
            && DigitsValue(LeadingDigits(afterPrefix)) == n
  {
    MessageSplits(n);
    StartsWithConcat(SuccessPrefix, NatToString(n) + AfterCount(n));
    LeadingDigitsOf(NatToString(n), AfterCount(n));
    NatToStringRoundTrip(n);
  }

  lemma MessageEnding(n: nat)
    ensures EndsWith(CountMessage(n), " signup forms)")
  {
    EndsWithConcat(SuccessPrefix + NatToString(n) + " event" + PluralSuffix(n) + " (" + NatToString(FormsPerEvent * n), " signup forms)");
  }

  lemma MessageWord(n: nat)
    ensures (CountMessage(n)[|SuccessPrefix| + |NatToString(n)|..][..7] == " events") <==> n != 1
  {
    MessageSplits(n);
    var w := AfterCount(n);
    var head := " event" + PluralSuffix(n);
    var forms := NatToString(FormsPerEvent * n);
    assert w == head + " (" + forms + " signup forms)";
    assert forall i :: 0 <= i < |head| ==> w[i] == head[i];
    if n != 1 {
      assert head == " events";
      assert w[..7] == " events";
    } else {
      assert |head| == 6 && w[6] == ' ';
    }
  }
}
