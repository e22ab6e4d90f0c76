/**
 `readBoundedBodyBytes`: a request body is read chunk by chunk, up to a limit.

 The length a request declares only rejects it early, and `ShortcutIsExact` says when its shortcut by the
 number of digits is the comparison it stands for. The stream decides: the bytes of the chunks are the
 result exactly when they are within the limit and reading them did not fail.
 */
module BoundedBody {
  import opened Decimals
  import opened Text
  import opened Wrappers

  type byte = x: int | 0 <= x < 256

  /** What one read of the stream gives, until it is done. */
  datatype Read = Chunk(bytes: seq<byte>) | Failure

  const INVALID_LIMIT := "maxBytes must be a positive safe integer"
  const TOO_LARGE := "payload_too_large"
  const UNREADABLE := "body_unreadable"

  // ---- The declared length ----

  function WithoutLeadingZeros(s: string): string {
    if s != "" && s[0] == '0' then WithoutLeadingZeros(s[1..]) else s
  }

  /** The header without surrounding space, if it is all digits. */
  function Declared(header: Option<string>): Option<string> {
    match header
    case None => None
    case Some(text) => var t := Trim(text); if t != "" && AllDigits(t) then Some(t) else None
  }

  lemma {:induction false} LeadingZeros(s: string)
    requires AllDigits(s)
    ensures AllDigits(WithoutLeadingZeros(s)) && Number(WithoutLeadingZeros(s)) == Number(s)
    ensures WithoutLeadingZeros(s) != "" ==> WithoutLeadingZeros(s)[0] != '0'
  {
    if s != "" && s[0] == '0' {
      LeadingZero(s);
      LeadingZeros(s[1..]);
    }
  }

  /** `declaredBodyExceedsLimit` */
  predicate DeclaredExceedsLimit(header: Option<string>, maxBytes: int) {
    match Declared(header)
    case None => false
    case Some(digits) =>
      LeadingZeros(digits);
      var stripped := WithoutLeadingZeros(digits);
      var significant := if stripped == "" then "0" else stripped;
      |significant| > 12 || Number(significant) > maxBytes
  }

  /** The shortcut is the comparison except for a number of at least 13 digits that the limit would allow. */
  lemma ShortcutIsExact(header: Option<string>, digits: string, maxBytes: int)
    requires Declared(header) == Some(digits)
    ensures (DeclaredExceedsLimit(header, maxBytes) <==> Number(digits) > maxBytes)
      <==> !(1_000_000_000_000 <= Number(digits) <= maxBytes)
    ensures maxBytes < 1_000_000_000_000 ==> (DeclaredExceedsLimit(header, maxBytes) <==> Number(digits) > maxBytes)
  {
    LeadingZeros(digits);
    var s := WithoutLeadingZeros(digits);
    TwelveZeros();
    if |s| > 12 {
      LeadingDigit(s);
      MoreDigits(12, |s| - 1);
    } else {
      PadNumber(s);
      MoreDigits(|s|, 12);
    }
  }

  /** What a header decides: text of decimal digits is compared, and anything else is no length at all. */
  lemma HeaderDecides(header: Option<string>, maxBytes: int)
    ensures DeclaredExceedsLimit(header, maxBytes) <==>
      && header.Some?
      && var text := Trim(header.value);
        && text != "" && (forall k :: 0 <= k < |text| ==> '0' <= text[k] <= '9')
        && (Number(text) >= 1_000_000_000_000 || Number(text) > maxBytes)
  {
    hide Trim, Number, DeclaredExceedsLimit;
    if Declared(header).Some? {
      ShortcutIsExact(header, Declared(header).value, maxBytes);
    } else {
      NoLength(header, maxBytes);
    }
  }

  lemma NoLength(header: Option<string>, maxBytes: int)
    requires Declared(header) == None
    ensures !DeclaredExceedsLimit(header, maxBytes)
  {}

  lemma TwelveZeros()
    ensures PowerOfTen(12) == 1_000_000_000_000
  {
    assert PowerOfTen(6) == 1_000_000;
    assert PowerOfTen(9) == 1_000_000_000;
  }

  // ---- The stream ----

  function Concat(chunks: seq<seq<byte>>): seq<byte> {
    if chunks == [] then [] else Concat(chunks[..|chunks| - 1]) + chunks[|chunks| - 1]
  }

  /** The chunks before the first failure. */
  function Arrived(stream: seq<Read>): seq<seq<byte>> {
    if stream == [] || stream[0].Failure? then [] else [stream[0].bytes] + Arrived(stream[1..])
  }

  lemma {:induction false} ArrivedPrefix(stream: seq<Read>, i: nat)
    requires i <= |stream| && Failure !in stream[..i]
    ensures |Arrived(stream)| >= i
    ensures forall k :: 0 <= k < i ==> stream[k].Chunk? && Arrived(stream)[k] == stream[k].bytes
    ensures i < |stream| && stream[i].Failure? ==> |Arrived(stream)| == i
    ensures i == |stream| ==> |Arrived(stream)| == i
  {
    if i > 0 {
      assert stream[0] == stream[..i][0];
      assert stream[1..][..i - 1] == stream[..i][1..];
      ArrivedPrefix(stream[1..], i - 1);
    }
  }

  lemma {:induction false} ConcatGrows(chunks: seq<seq<byte>>, i: nat)
    requires i <= |chunks|
    ensures |Concat(chunks[..i])| <= |Concat(chunks)|
    decreases |chunks|
  {
    if i < |chunks| {
      ConcatGrows(chunks[..|chunks| - 1], i);
      assert chunks[..|chunks| - 1][..i] == chunks[..i];
    } else {
      assert chunks[..i] == chunks;
    }
  }

  /** The buffer the chunks are copied into, one after the other. */
  method Assemble(chunks: seq<seq<byte>>, bytesRead: nat) returns (value: array<byte>)
    requires bytesRead == |Concat(chunks)|
    ensures fresh(value) && value[..] == Concat(chunks)
  {
    value := new byte[bytesRead];
    var offset := 0;
    for i := 0 to |chunks|
      invariant offset == |Concat(chunks[..i])| <= value.Length && value[..offset] == Concat(chunks[..i])
    {
      ConcatGrows(chunks, i + 1);
      assert chunks[..i + 1][..i] == chunks[..i];
      Set(value, chunks[i], offset);
      offset := offset + |chunks[i]|;
    }
    assert chunks[..|chunks|] == chunks;
  }

  method Set(value: array<byte>, chunk: seq<byte>, offset: nat)
    requires offset + |chunk| <= value.Length
    modifies value
    ensures value[..offset + |chunk|] == old(value[..offset]) + chunk
    ensures value[offset + |chunk|..] == old(value[offset + |chunk|..])
  {
    forall k | 0 <= k < |chunk| {
      value[offset + k] := chunk[k];
    }
  }

  /**
   The bytes that arrive before any failure decide: too many are too large, whatever follows them. Of the
   chunks that are `taken` from the stream, all but a last one that is too much fit the limit together.
   */
  method ReadStream(stream: seq<Read>, maxBytes: nat) returns (r: Result<seq<byte>>, taken: nat)
    ensures taken <= |Arrived(stream)| && (r != Err(TOO_LARGE) ==> taken == |Arrived(stream)|)
    ensures r == Err(TOO_LARGE) ==>
      taken > 0 && |Concat(Arrived(stream)[..taken - 1])| <= maxBytes < |Concat(Arrived(stream)[..taken])|
    ensures var arrived := Concat(Arrived(stream));
      r == if |arrived| > maxBytes then Err(TOO_LARGE) else if Failure in stream then Err(UNREADABLE) else Ok(arrived)
  {
    hide Arrived;
    var chunks: seq<seq<byte>> := [];
    var bytesRead := 0;
    for i := 0 to |stream|
      invariant Failure !in stream[..i]
      invariant |Arrived(stream)| >= i && chunks == Arrived(stream)[..i]
      invariant bytesRead == |Concat(chunks)| <= maxBytes
    {
      ArrivedPrefix(stream, i);
      match stream[i] {
        case Failure =>
          assert Arrived(stream)[..i] == Arrived(stream);
          return Err(UNREADABLE), i;
        case Chunk(bytes) =>
          assert stream[..i + 1] == stream[..i] + [stream[i]];
          ArrivedPrefix(stream, i + 1);
          assert Arrived(stream)[..i + 1] == chunks + [bytes];
          assert (chunks + [bytes])[..i] == chunks;
          bytesRead := bytesRead + |bytes|;
          if bytesRead > maxBytes {
            ConcatGrows(Arrived(stream), i + 1);
            return Err(TOO_LARGE), i + 1;
          }
          chunks := chunks + [bytes];
      }
    }
    ArrivedPrefix(stream, |stream|);
    assert stream[..|stream|] == stream && Arrived(stream)[..|stream|] == Arrived(stream);
    var value := Assemble(chunks, bytesRead);
    return Ok(value[..]), |stream|;
  }

  /** `readBoundedBodyBytes` */
  method ReadBoundedBodyBytes(header: Option<string>, body: Option<seq<Read>>, maxBytes: int)
    returns (r: Result<seq<byte>>)
    ensures r ==
      if !IsSafeInteger(maxBytes) || maxBytes < 1 then Err(INVALID_LIMIT)
      else if DeclaredExceedsLimit(header, maxBytes) then Err(TOO_LARGE)
      else if body == None then Ok([])
      else
        var arrived := Concat(Arrived(body.value));
        if |arrived| > maxBytes then Err(TOO_LARGE)
        else if Failure in body.value then Err(UNREADABLE)
        else Ok(arrived)
  {
    if !IsSafeInteger(maxBytes) || maxBytes < 1 {
      return Err(INVALID_LIMIT);
    }
    if DeclaredExceedsLimit(header, maxBytes) {
      return Err(TOO_LARGE);
    }
    if body == None {
      return Ok([]);
    }
    var taken;
    r, taken := ReadStream(body.value, maxBytes);
  }
}
