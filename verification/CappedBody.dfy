/** Bodies read chunk by chunk under a byte cap: the request body (src/relay/body.rs) and the
    upstream response body (src/relay/http.rs). */
module CappedBody {
  import opened Common

  /** What the body stream yields: chunks, possibly empty, until its end or an error. */
  datatype Item<+E> = Chunk(bytes: string) | Broken(error: E)

  datatype Body<+E> = Whole(bytes: string) | TooLarge(observed: nat) | Unreadable(error: E)

  function SaturatingAdd(a: nat, b: nat): nat {
    if a + b > USIZE_MAX then USIZE_MAX else a + b
  }

  /** The loop from a buffer on. */
  function ReadFrom<E>(buffer: string, items: seq<Item<E>>, cap: nat): Body<E>
    decreases |items|
  {
    if items == [] then Whole(buffer)
    else match items[0]
      case Broken(error) => Unreadable(error)
      case Chunk(chunk) =>
        if chunk == "" then ReadFrom(buffer, items[1..], cap)
        else if SaturatingAdd(|buffer|, |chunk|) > cap then TooLarge(SaturatingAdd(|buffer|, |chunk|))
        else ReadFrom(buffer + chunk, items[1..], cap)
  }

  /** Every byte up to the end of the stream or its first error. */
  function Bytes<E>(items: seq<Item<E>>): string {
    if items == [] || items[0].Broken? then "" else items[0].bytes + Bytes(items[1..])
  }

  /** The first error of the stream, if any. */
  function FirstError<E>(items: seq<Item<E>>): (error: seq<E>)
    ensures |error| <= 1
  {
    if items == [] then []
    else if items[0].Broken? then [items[0].error]
    else FirstError(items[1..])
  }

  /** A total that may be buffered. A cap of USIZE_MAX is never exceeded, because the running total
      saturates there. */
  predicate Fits(total: nat, cap: nat) {
    total <= cap || cap == USIZE_MAX
  }

  /** The verdict depends only on the bytes and the error of the stream, not on how it is cut: too
      large when the bytes before the end or the error do not fit, otherwise the error, otherwise
      the whole body. */
  lemma {:induction false} Verdict<E>(buffer: string, items: seq<Item<E>>, cap: nat)
    requires cap <= USIZE_MAX && Fits(|buffer|, cap)
    ensures var total := buffer + Bytes(items);
            var body := ReadFrom(buffer, items, cap);
            if !Fits(|total|, cap) then body.TooLarge? && body.observed > cap
            else if FirstError(items) != [] then body == Unreadable(FirstError(items)[0])
            else body == Whole(total)
    decreases |items|
  {
    if items != [] && items[0].Chunk? {
      var chunk := items[0].bytes;
      assert buffer + Bytes(items) == buffer + chunk + Bytes(items[1..]);
      if SaturatingAdd(|buffer|, |chunk|) <= cap {
        Verdict(buffer + chunk, items[1..], cap);
      }
      assert chunk == "" ==> buffer + chunk == buffer;
    }
  }

  /** A body that is refused is refused at the first chunk that passes the cap, and its total so far is what
      the refusal names. */
  lemma {:induction false} RefusedAt<E>(buffer: string, items: seq<Item<E>>, cap: nat) returns (k: nat)
    requires cap <= USIZE_MAX && Fits(|buffer|, cap) && ReadFrom(buffer, items, cap).TooLarge?
    ensures k < |items| && Fits(|buffer + Bytes(items[..k])|, cap) && !Fits(|buffer + Bytes(items[..k + 1])|, cap)
    ensures var total := |buffer + Bytes(items[..k + 1])|;
            ReadFrom(buffer, items, cap)
            == TooLarge(if total > 0xFFFF_FFFF_FFFF_FFFF then 0xFFFF_FFFF_FFFF_FFFF else total)
    decreases |items|
  {
    var chunk := items[0].bytes;
    BytesCons(items, 0);
    if chunk != "" && SaturatingAdd(|buffer|, |chunk|) > cap {
      k := 0;
    } else {
      assert chunk == "" ==> buffer + chunk == buffer;
      k := RefusedAt(buffer + chunk, items[1..], cap);
      hide ReadFrom, Bytes;
      BytesCons(items, k);
      BytesCons(items, k + 1);
      Associative(buffer, chunk, Bytes(items[1..][..k]));
      Associative(buffer, chunk, Bytes(items[1..][..k + 1]));
      k := k + 1;
    }
  }

  lemma BytesCons<E>(items: seq<Item<E>>, k: nat)
    requires k < |items| && items[0].Chunk?
    ensures Bytes(items[..k + 1]) == items[0].bytes + Bytes(items[1..][..k]) && Bytes(items[..0]) == ""
  {
    assert items[..k + 1][1..] == items[1..][..k];
  }

  /** Chunking independence: two streams with the same bytes and the same error, however they are
      cut and whatever empty chunks they carry, are both accepted with the same body, both broken
      with the same error, or both too large. */
  lemma ChunkingIndependent<E>(a: seq<Item<E>>, b: seq<Item<E>>, cap: nat)
    requires cap <= USIZE_MAX && Bytes(a) == Bytes(b) && FirstError(a) == FirstError(b)
    ensures var x, y := ReadFrom("", a, cap), ReadFrom("", b, cap);
            x == y || (x.TooLarge? && y.TooLarge?)
  {
    Verdict("", a, cap);
    Verdict("", b, cap);
  }

  /** An error-free body is accepted exactly when its total is within the cap (a cap of USIZE_MAX has
      nothing above it), and returned whole. */
  lemma AcceptedExactly<E>(items: seq<Item<E>>, cap: nat)
    requires cap <= USIZE_MAX && FirstError(items) == []
    ensures ReadFrom("", items, cap).Whole? <==> |Bytes(items)| <= cap || cap == USIZE_MAX
    ensures ReadFrom("", items, cap).Whole? ==> ReadFrom("", items, cap).bytes == Bytes(items)
  {
    Verdict("", items, cap);
    assert "" + Bytes(items) == Bytes(items);
  }

  /** The loop of `read_capped` and `execute_capped`: one growing buffer that is within the cap
      after every chunk. */
  method ReadCapped<E>(items: seq<Item<E>>, cap: nat) returns (body: Body<E>)
    requires cap <= USIZE_MAX
    ensures body == ReadFrom("", items, cap)
    ensures body.Whole? ==> body.bytes == Bytes(items) && Fits(|body.bytes|, cap)
  {
    Verdict("", items, cap);
    assert "" + Bytes(items) == Bytes(items);
    var buffer := "";
    var i := 0;
    assert items[0..] == items;
    while i < |items|
      invariant 0 <= i <= |items|
      invariant ReadFrom("", items, cap) == ReadFrom(buffer, items[i..], cap)
      invariant Fits(|buffer|, cap)
    {
      assert items[i..][0] == items[i] && items[i..][1..] == items[i + 1..];
      match items[i] {
        case Broken(error) => return Unreadable(error);
        case Chunk(chunk) =>
          i := i + 1;
          if chunk == "" {
            continue;
          }
          var observed := SaturatingAdd(|buffer|, |chunk|);
          if observed > cap {
            return TooLarge(observed);
          }
          buffer := buffer + chunk;
      }
    }
    return Whole(buffer);
  }
}
