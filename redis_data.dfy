/** RedisData: the envelope the logical-expiry strategy stores, an expiry time beside an opaque payload. */
module Envelope {
  import opened Wrappers
  import opened Numbers
  import opened Text

  /** The envelope's two fields: the second after which the entry counts as stale, and the payload as JSON text
      (None: a null payload, which the JSON writer leaves out). */
  datatype RedisData = RedisData(expireTime: Long, data: Option<string>)

  const EXPIRE_FIELD: string := "{\"expireTime\":"
  const DATA_FIELD: string := ",\"data\":"

  /** The envelope as one JSON object: the expiry, then the payload when there is one. */
  function Encode(d: RedisData): string {
    EXPIRE_FIELD + DecimalString(d.expireTime) + (match d.data case None => "" case Some(j) => DATA_FIELD + j) + "}"
  }

  /** The position of the first comma in s, |s| when there is none. */
  function FirstComma(s: string): (i: nat)
    ensures i <= |s|
    ensures forall j :: 0 <= j < i ==> s[j] != ','
    ensures i < |s| ==> s[i] == ','
  {
    if s == [] then 0 else if s[0] == ',' then 0 else 1 + FirstComma(s[1..])
  }

  /** Reading an envelope back: MalformedJson for text that is not of the written shape. */
  function Decode(s: string): Result<RedisData> {
    if |s| < |EXPIRE_FIELD| + 1 || s[..|EXPIRE_FIELD|] != EXPIRE_FIELD || s[|s| - 1] != '}' then Failure(MalformedJson)
    else
      var body := s[|EXPIRE_FIELD|..|s| - 1];
      var i := FirstComma(body);
      match ParseLong(body[..i])
      case None => Failure(MalformedJson)
      case Some(t) =>
        if i == |body| then Success(RedisData(t, None))
        else
          var rest := body[i..];
          if |rest| < |DATA_FIELD| || rest[..|DATA_FIELD|] != DATA_FIELD then Failure(MalformedJson)
          else Success(RedisData(t, Some(rest[|DATA_FIELD|..])))
  }

  /** Decimal strings hold digits and a minus sign only, never a comma. */
  lemma DecimalStringHasNoComma(n: int)
    ensures forall j :: 0 <= j < |DecimalString(n)| ==> DecimalString(n)[j] != ','
  {
    var s := DecimalString(n);
    if n < 0 {
      var d := Digits(-n);
      assert s == "-" + d;
      forall j | 0 <= j < |s| ensures s[j] != ',' {
        if j > 0 { assert s[j] == d[j - 1] && IsDigit(d[j - 1]); }
      }
    }
  }

  /** Every envelope reads back as itself: same expiry, same payload. */
  lemma {:induction false} DecodeEncode(d: RedisData)
    ensures Decode(Encode(d)) == Success(d)
  {
    var s := Encode(d);
    var digits := DecimalString(d.expireTime);
    var tail := match d.data case None => "" case Some(j) => DATA_FIELD + j;
    assert s == EXPIRE_FIELD + (digits + tail) + "}";
    assert s[..|EXPIRE_FIELD|] == EXPIRE_FIELD;
    var body := s[|EXPIRE_FIELD|..|s| - 1];
    assert body == digits + tail;
    DecimalStringHasNoComma(d.expireTime);
    var i := FirstComma(body);
    assert i == |digits| by {
      forall j | 0 <= j < |digits| ensures body[j] != ',' { assert body[j] == digits[j]; }
      if d.data.Some? { assert body[|digits|] == ','; } else { assert body == digits; }
    }
    assert body[..i] == digits;
    ParseLongOfDecimal(d.expireTime);
    if d.data.Some? {
      assert body[i..] == DATA_FIELD + d.data.value;
      assert (DATA_FIELD + d.data.value)[..|DATA_FIELD|] == DATA_FIELD;
    }
  }

  /** A written envelope is never blank, so a reader that skips blank strings always sees it. */
  lemma EncodeNotBlank(d: RedisData)
    ensures !IsBlank(Encode(d))
  {
    assert Encode(d)[0] == '{';
  }
}
