/** The two WebSocket message types of the relay and the explicit conversions between them
    (src/relay/ws_convert.rs). A payload is the sequence of its bytes, one char per byte; a
    tungstenite `CloseCode` is the number it stands for. */
module Frames {

  import opened Common

  datatype CloseFrame = CloseFrame(code: nat, reason: string)

  /** What the downstream (client) socket reads and writes. */
  datatype AxumMessage =
    | AxText(text: string)
    | AxBinary(bytes: string)
    | AxPing(payload: string)
    | AxPong(payload: string)
    | AxClose(frame: Option<CloseFrame>)

  /** What the upstream socket reads and writes. */
  datatype TungMessage =
    | TuText(text: string)
    | TuBinary(bytes: string)
    | TuPing(payload: string)
    | TuPong(payload: string)
    | TuClose(frame: Option<CloseFrame>)
    | TuRawFrame(payload: string)

  /** A data frame as either peer sees it: its kind and its bytes. */
  datatype Data = Text(bytes: string) | Binary(bytes: string)

  const DEFAULT_CLOSE_CODE: nat := 1000

  function AxumToTungstenite(m: AxumMessage): Option<TungMessage> {
    match m
    case AxText(text) => Some(TuText(text))
    case AxBinary(bytes) => Some(TuBinary(bytes))
    case AxClose(frame) => Some(TuClose(frame))
    case AxPing(_) => None
    case AxPong(_) => None
  }

  function TungsteniteToAxum(m: TungMessage): Option<AxumMessage> {
    match m
    case TuText(text) => Some(AxText(text))
    case TuBinary(bytes) => Some(AxBinary(bytes))
    case TuClose(frame) => Some(AxClose(frame))
    case TuPing(_) => None
    case TuPong(_) => None
    case TuRawFrame(_) => None
  }

  /** The code and reason to send downstream when the upstream closes. */
  function CloseParts(frame: Option<CloseFrame>): CloseFrame {
    match frame
    case Some(f) => CloseFrame(if f.code == 0 then DEFAULT_CLOSE_CODE else f.code, f.reason)
    case None => CloseFrame(DEFAULT_CLOSE_CODE, "")
  }

  /** The data frame a message carries, as a sequence of at most one. */
  function AxumData(m: AxumMessage): seq<Data> {
    match m
    case AxText(text) => [Text(text)]
    case AxBinary(bytes) => [Binary(bytes)]
    case _ => []
  }

  function TungData(m: TungMessage): seq<Data> {
    match m
    case TuText(text) => [Text(text)]
    case TuBinary(bytes) => [Binary(bytes)]
    case _ => []
  }

  function AxumDataAll(ms: seq<AxumMessage>): seq<Data> {
    if ms == [] then [] else AxumDataAll(ms[..|ms| - 1]) + AxumData(ms[|ms| - 1])
  }

  function TungDataAll(ms: seq<TungMessage>): seq<Data> {
    if ms == [] then [] else TungDataAll(ms[..|ms| - 1]) + TungData(ms[|ms| - 1])
  }

  function AxumBytes(m: AxumMessage): nat {
    match m
    case AxText(text) => |text|
    case AxBinary(bytes) => |bytes|
    case _ => 0
  }

  function TungBytes(m: TungMessage): nat {
    match m
    case TuText(text) => |text|
    case TuBinary(bytes) => |bytes|
    case _ => 0
  }

  function SumBytes(ms: seq<TungMessage>): nat {
    if ms == [] then 0 else SumBytes(ms[..|ms| - 1]) + TungBytes(ms[|ms| - 1])
  }

  predicate AxumKeepalive(m: AxumMessage) { m.AxPing? || m.AxPong? }

  predicate TungKeepalive(m: TungMessage) { m.TuPing? || m.TuPong? }

  /** Converting towards the upstream keeps kind and bytes, drops exactly the keepalives, and is
      undone by the conversion back. */
  lemma ConversionFaithful(m: AxumMessage)
    ensures AxumToTungstenite(m).None? <==> AxumKeepalive(m)
    ensures AxumToTungstenite(m).Some? ==>
              && TungData(AxumToTungstenite(m).value) == AxumData(m)
              && TungBytes(AxumToTungstenite(m).value) == AxumBytes(m)
              && TungsteniteToAxum(AxumToTungstenite(m).value) == Some(m)
    ensures match m
            case AxText(text) => AxumToTungstenite(m) == Some(TuText(text)) && AxumData(m) == [Text(text)]
            case AxBinary(bytes) => AxumToTungstenite(m) == Some(TuBinary(bytes)) && AxumData(m) == [Binary(bytes)]
            case AxClose(frame) => AxumToTungstenite(m) == Some(TuClose(frame)) && AxumData(m) == []
            case _ => AxumToTungstenite(m) == None && AxumData(m) == []
    ensures AxumBytes(m) == if AxumData(m) == [] then 0 else |AxumData(m)[0].bytes|
  {
  }

  lemma ConversionBackFaithful(m: TungMessage)
    ensures TungsteniteToAxum(m).None? <==> TungKeepalive(m) || m.TuRawFrame?
    ensures TungsteniteToAxum(m).Some? ==>
              && AxumData(TungsteniteToAxum(m).value) == TungData(m)
              && AxumBytes(TungsteniteToAxum(m).value) == TungBytes(m)
              && AxumToTungstenite(TungsteniteToAxum(m).value) == Some(m)
  {
  }

  lemma AxumDataAppend(ms: seq<AxumMessage>, m: AxumMessage)
    ensures AxumDataAll(ms + [m]) == AxumDataAll(ms) + AxumData(m)
  {
    assert (ms + [m])[..|ms|] == ms;
  }

  lemma TungDataAppend(ms: seq<TungMessage>, m: TungMessage)
    ensures TungDataAll(ms + [m]) == TungDataAll(ms) + TungData(m)
  {
    assert (ms + [m])[..|ms|] == ms;
  }

  lemma SumBytesAppend(ms: seq<TungMessage>, m: TungMessage)
    ensures SumBytes(ms + [m]) == SumBytes(ms) + TungBytes(m)
  {
    assert (ms + [m])[..|ms|] == ms;
  }

  lemma TungDataSnoc(ms: seq<TungMessage>)
    requires ms != []
    ensures TungDataAll(ms) == TungDataAll(ms[..|ms| - 1]) + TungData(ms[|ms| - 1])
  {
  }

  lemma TungDataOne(m: TungMessage)
    ensures TungDataAll([m]) == TungData(m) && TungDataAll([]) == []
  {
    assert [m][..0] == [];
  }

  /** Taking the head off a queue takes its data off the front. */
  lemma {:induction false} TungDataPop(ms: seq<TungMessage>)
    requires ms != []
    ensures TungDataAll(ms) == TungData(ms[0]) + TungDataAll(ms[1..])
  {
    hide TungDataAll, TungData;
    if |ms| == 1 {
      TungDataOne(ms[0]);
      assert ms == [ms[0]] && ms[1..] == [];
    } else {
      var front, tail, last := ms[..|ms| - 1], ms[1..], ms[|ms| - 1];
      TungDataPop(front);
      TungDataSnoc(ms);
      TungDataSnoc(tail);
      assert front[1..] == tail[..|tail| - 1] && tail[|tail| - 1] == last && front[0] == ms[0];
      Associative(TungData(ms[0]), TungDataAll(front[1..]), TungData(last));
    }
  }
}
