/**
  The disruption report of the NS (Dutch railways) service (src/services/ns.ts):
  each planned disruption becomes one line built from its period and route,
  each unplanned one becomes its message with carriage returns turned into
  newlines, planned lines first. The remote call that fetches the records is
  an input: its settled callback arguments.
*/
module Ns {
  import opened JsText
  import opened Engine

  /** A planned disruption (`StoringGepland`, src/ns-api.d.ts:13-20). */
  datatype StoringGepland = StoringGepland(
    id: string, traject: string, periode: string, reden: string, advies: string, bericht: string)

  /** An unplanned disruption (`StoringOngepland`, src/ns-api.d.ts:22-27). */
  datatype StoringOngepland = StoringOngepland(id: string, traject: string, reden: string, bericht: string)

  /** The provider's answer (`Storingen`, src/ns-api.d.ts:8-11). */
  datatype Storingen = Storingen(gepland: seq<StoringGepland>, ongepland: seq<StoringOngepland>)

  /** The two arguments the provider passes to the callback: an error (falsy when none) and the data. */
  datatype ApiReply = ApiReply(err: Rejection, storingen: Storingen)

  const GeplandPrefix: string := "Geplande werkzaamheden "

  const TrajectInfix: string := " op traject "

  /** `geplandToString`: the period and the route, in that order, between the fixed words. */
  function GeplandToString(storing: StoringGepland): (r: string)
    ensures |r| == |GeplandPrefix| + |storing.periode| + |TrajectInfix| + |storing.traject|
    ensures r[..|GeplandPrefix|] == GeplandPrefix
    ensures r[|GeplandPrefix|..|GeplandPrefix| + |storing.periode|] == storing.periode
    ensures r[|GeplandPrefix| + |storing.periode|..|r| - |storing.traject|] == TrajectInfix
    ensures r[|r| - |storing.traject|..] == storing.traject
  {
    GeplandPrefix + storing.periode + TrajectInfix + storing.traject
  }

  /** `text.split('\r').join('\n')`. */
  function LineBreaks(text: string): (r: string)
    ensures |r| == |text|
    ensures forall i :: 0 <= i < |text| ==> r[i] == if text[i] == '\r' then '\n' else text[i]
    ensures '\r' !in r
  {
    SplitJoinReplaces(text, '\r', '\n');
    Join(Split(text, '\r'), "\n")
  }

  /** `ongeplandToString`: the message with every carriage return made a newline. */
  function OngeplandToString(storing: StoringOngepland): (r: string)
    ensures |r| == |storing.bericht|
    ensures forall i :: 0 <= i < |r| ==>
      r[i] == if storing.bericht[i] == '\r' then '\n' else storing.bericht[i]
    ensures '\r' !in r
  {
    LineBreaks(storing.bericht)
  }

  /** Normalising the line breaks a second time changes nothing. */
  lemma LineBreaksIdempotent(text: string)
    ensures LineBreaks(LineBreaks(text)) == LineBreaks(text)
  {
  }

  /** A message without carriage returns is reported as it is. */
  lemma LineBreaksKeepsPlainText(text: string)
    requires '\r' !in text
    ensures LineBreaks(text) == text
  {
  }

  /** `Gepland.map(geplandToString)`. */
  function GeplandLines(gepland: seq<StoringGepland>): (r: seq<string>)
    ensures |r| == |gepland|
    ensures forall i :: 0 <= i < |gepland| ==> r[i] == GeplandToString(gepland[i])
  {
    if |gepland| == 0 then [] else [GeplandToString(gepland[0])] + GeplandLines(gepland[1..])
  }

  /** `Ongepland.map(ongeplandToString)`. */
  function OngeplandLines(ongepland: seq<StoringOngepland>): (r: seq<string>)
    ensures |r| == |ongepland|
    ensures forall i :: 0 <= i < |ongepland| ==> r[i] == OngeplandToString(ongepland[i])
  {
    if |ongepland| == 0 then [] else [OngeplandToString(ongepland[0])] + OngeplandLines(ongepland[1..])
  }

  /**
    `Gepland.map(geplandToString).concat(Ongepland.map(ongeplandToString))`:
    one line per record, the planned ones first, each group in its input order.
  */
  function StoringenLines(storingen: Storingen): (r: seq<string>)
    ensures |r| == |storingen.gepland| + |storingen.ongepland|
    ensures forall i :: 0 <= i < |storingen.gepland| ==> r[i] == GeplandToString(storingen.gepland[i])
    ensures forall j :: 0 <= j < |storingen.ongepland| ==>
      r[|storingen.gepland| + j] == OngeplandToString(storingen.ongepland[j])
  {
    GeplandLines(storingen.gepland) + OngeplandLines(storingen.ongepland)
  }

  /**
    The callback in `getStoringen`: a truthy error rejects the promise with that
    error and produces no lines; otherwise the promise resolves to the lines.
  */
  function GetStoringen(reply: ApiReply): (r: HandlerResult)
    ensures r.Rejected? <==> reply.err.Thrown?
    ensures r.Rejected? ==> r.err == reply.err
    ensures r.Resolved? ==> |r.replies| == |reply.storingen.gepland| + |reply.storingen.ongepland|
    ensures r.Resolved? ==> r.replies == StoringenLines(reply.storingen)
  {
    if reply.err.Thrown? then Rejected(reply.err) else Resolved(StoringenLines(reply.storingen))
  }
}
