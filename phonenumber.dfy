/** The phone-number format check of pkg/phonenumber. */
module PhoneNumber {
  import opened GoString
  import opened Strconv

  /**
    Eleven bytes, starting with "09", whose last nine bytes `strconv.Atoi`
    accepts. Atoi also takes a leading sign, so the byte after "09" may be
    '+' or '-'.
   */
  function IsValid(phoneNumber: Bytes): (r: bool)
    ensures r ==> |phoneNumber| == 11 && phoneNumber[..2] == "09"
  {
    if |phoneNumber| != 11 then false
    else if phoneNumber[0..2] != "09" then false
    else ParseDecimal(phoneNumber[2..]).Success?
  }

  /** Byte by byte: "09", then a digit or a sign, then eight digits. */
  lemma IsValidExactly(phoneNumber: Bytes)
    ensures IsValid(phoneNumber) <==>
              |phoneNumber| == 11 && phoneNumber[0] == '0' && phoneNumber[1] == '9' &&
              (IsDigit(phoneNumber[2]) || IsSign(phoneNumber[2])) &&
              forall i :: 3 <= i < 11 ==> IsDigit(phoneNumber[i])
  {
    if |phoneNumber| == 11 {
      var tail := phoneNumber[2..];
      ParseDecimalAcceptsExactly(tail);
      assert forall i :: 1 <= i < |tail| ==> tail[i] == phoneNumber[i + 2];
      assert phoneNumber[0..2] == "09" <==> phoneNumber[0] == '0' && phoneNumber[1] == '9';
    }
  }

  /** "09" followed by exactly nine digits is accepted. */
  lemma DigitsAccepted(phoneNumber: Bytes)
    requires |phoneNumber| == 11 && phoneNumber[..2] == "09"
    requires forall i :: 2 <= i < 11 ==> IsDigit(phoneNumber[i])
    ensures IsValid(phoneNumber)
  {
    IsValidExactly(phoneNumber);
  }

  /** A non-digit after position 2, or a byte at position 2 that is neither a digit nor a sign, is rejected. */
  lemma NonDigitRejected(phoneNumber: Bytes, i: nat)
    requires 2 <= i < |phoneNumber|
    requires !IsDigit(phoneNumber[i]) && (i == 2 ==> !IsSign(phoneNumber[i]))
    ensures !IsValid(phoneNumber)
  {
    IsValidExactly(phoneNumber);
  }

  /**
    The sign Atoi allows: "09", then '+' or '-', then eight digits passes,
    although the format is documented as numeric.
   */
  lemma SignedTailAccepted(phoneNumber: Bytes)
    requires |phoneNumber| == 11 && phoneNumber[..2] == "09" && IsSign(phoneNumber[2])
    requires forall i :: 3 <= i < 11 ==> IsDigit(phoneNumber[i])
    ensures IsValid(phoneNumber)
  {
    IsValidExactly(phoneNumber);
  }

  lemma SignedTailExample()
    ensures IsValid("09-12345678")
  {
    SignedTailAccepted("09-12345678");
  }
}
