/** maskCardNumber of the card controller, over Java's substring rules. */
module Controller {
  import opened Domain

  /** StringIndexOutOfBoundsException. */
  datatype StringError = IndexOutOfBounds

  /** String.substring(begin, end): throws unless 0 <= begin <= end <= length. */
  function Substring(s: string, begin: int, end: int): (r: Result<string, StringError>)
    ensures r.Ok? <==> 0 <= begin <= end <= |s|
    ensures r.Ok? ==> |r.value| == end - begin && forall k :: 0 <= k < end - begin ==> r.value[k] == s[begin + k]
  {
    if 0 <= begin <= end <= |s| then Ok(s[begin..end]) else Err(IndexOutOfBounds)
  }

  /** String.substring(begin): throws unless 0 <= begin <= length. */
  function SubstringFrom(s: string, begin: int): (r: Result<string, StringError>)
    ensures r.Ok? <==> 0 <= begin <= |s|
    ensures r.Ok? ==> |r.value| == |s| - begin && forall k :: 0 <= k < |s| - begin ==> r.value[k] == s[begin + k]
  {
    if 0 <= begin <= |s| then Ok(s[begin..]) else Err(IndexOutOfBounds)
  }

  /** maskCardNumber as written: null or fewer than 8 characters gives "****";
      otherwise the first 4 characters, "****", and everything from index 12.
      `None` stands for a null card number. */
  function MaskCardNumber(cardNumber: Option<string>): (r: Result<string, StringError>)
    ensures r.Err? <==> cardNumber.Some? && 8 <= |cardNumber.value| < 12
    ensures r.Ok? ==> |r.value| == (if cardNumber.None? || |cardNumber.value| < 8 then 4 else |cardNumber.value| - 4)
  {
    match cardNumber
    case None => Ok("****")
    case Some(s) =>
      if |s| < 8 then Ok("****")
      else
        match (Substring(s, 0, 4), SubstringFrom(s, 12))
        case (Ok(head), Ok(tail)) => Ok(head + "****" + tail)
        case (Err(e), _) => Err(e)
        case (_, Err(e)) => Err(e)
  }

  /** A null or short number is replaced by exactly "****". */
  lemma MaskNullOrShort(cardNumber: Option<string>)
    requires cardNumber.None? || |cardNumber.value| < 8
    ensures MaskCardNumber(cardNumber) == Ok("****")
  {
  }

  /** From 12 characters on, the first 4 are kept, the next 8 become "****"
      and the rest is kept, so the result is 4 characters shorter. */
  lemma MaskLong(s: string)
    requires |s| >= 12
    ensures MaskCardNumber(Some(s)).Ok?
    ensures var m := MaskCardNumber(Some(s)).value;
      && |m| == |s| - 4
      && m[..4] == s[..4]
      && m[4..8] == "****"
      && m[8..] == s[12..]
  {
    var m := MaskCardNumber(Some(s)).value;
    assert m == s[..4] + "****" + s[12..];
  }

  /** A 16-digit number keeps its first 4 and last 4 digits around "****". */
  lemma MaskSixteenDigits(s: string)
    requires |s| == 16
    ensures MaskCardNumber(Some(s)).Ok?
    ensures var m := MaskCardNumber(Some(s)).value;
      |m| == 12 && m[..4] == s[..4] && m[4..8] == "****" && m[8..] == s[|s| - 4..]
  {
    MaskLong(s);
  }

  /** The documented example: 4532015112830366 becomes 4532****0366. */
  lemma MaskExample()
    ensures MaskCardNumber(Some("4532015112830366")) == Ok("4532****0366")
  {
    var s := "4532015112830366";
    assert s[..4] == "4532" && s[12..] == "0366";
    assert "4532" + "****" + "0366" == "4532****0366";
  }

  /** Lengths 8 to 11 pass the length guard, and substring(12) then throws. */
  lemma MaskMidLengthFails(s: string)
    requires 8 <= |s| < 12
    ensures MaskCardNumber(Some(s)) == Err(IndexOutOfBounds)
  {
  }

  /** An 8-digit number, which the guard calls valid, makes the call throw. */
  lemma MaskEightDigitsThrows()
    ensures MaskCardNumber(Some("12345678")).Err?
  {
    MaskMidLengthFails("12345678");
  }

  /** A 19-digit number shows 7 trailing digits, not the documented last 4. */
  lemma MaskNineteenDigitsShowsSeven()
    ensures MaskCardNumber(Some("4532015112830366123")) == Ok("4532****0366123")
  {
    var s := "4532015112830366123";
    assert s[..4] == "4532" && s[12..] == "0366123";
    assert "4532" + "****" + "0366123" == "4532****0366123";
  }

  /** A 12-digit number, which the guard lets through, shows no trailing digit at all. */
  lemma MaskTwelveDigitsShowsNone()
    ensures MaskCardNumber(Some("123456789012")) == Ok("1234****")
  {
    var s := "123456789012";
    assert s[..4] == "1234" && s[12..] == "";
    assert "1234" + "****" + "" == "1234****";
  }

  /** maskCardNumber as documented: first 4 and last 4 characters around
      "****" for every number of at least 8 characters; "****" otherwise. */
  function MaskFirstAndLastFour(cardNumber: Option<string>): (r: string)
    ensures |r| == (if cardNumber.None? || |cardNumber.value| < 8 then 4 else 12)
  {
    match cardNumber
    case None => "****"
    case Some(s) => if |s| < 8 then "****" else s[..4] + "****" + s[|s| - 4..]
  }

  /** The documented masking never fails, always has 12 characters for a
      number of 8 or more, shows only the first and last 4 of them, and agrees
      with the code as written on 16-digit numbers. */
  lemma MaskKeepsFirstAndLastFour(cardNumber: Option<string>)
    ensures cardNumber.None? || |cardNumber.value| < 8 ==> MaskFirstAndLastFour(cardNumber) == "****"
    ensures cardNumber.Some? && |cardNumber.value| >= 8 ==>
      var s, m := cardNumber.value, MaskFirstAndLastFour(cardNumber);
      |m| == 12 && m[..4] == s[..4] && m[4..8] == "****" && m[8..] == s[|s| - 4..]
    ensures cardNumber.Some? && |cardNumber.value| == 16 ==>
      MaskCardNumber(cardNumber) == Ok(MaskFirstAndLastFour(cardNumber))
  {
    if cardNumber.Some? && |cardNumber.value| >= 8 {
      var s := cardNumber.value;
      var m := MaskFirstAndLastFour(cardNumber);
      assert m == s[..4] + "****" + s[|s| - 4..];
      if |s| == 16 {
        MaskSixteenDigits(s);
      }
    }
  }
}
