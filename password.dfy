/**
 * `validate_password` of the admin password script: a length window of 6 to
 * 128 characters, then at least one letter and at least one digit, each
 * failure reported with its own message in that order.
 */
module Password {
  const TooShort := "Password must be at least 6 characters long"
  const TooLong := "Password must be less than 128 characters"
  const NoLetter := "Password must contain at least one letter"
  const NoNumber := "Password must contain at least one number"
  const Valid := "Password is valid"

  /** `str.isalpha()` on ASCII characters. */
  predicate IsLetter(c: char) {
    ('a' <= c <= 'z') || ('A' <= c <= 'Z')
  }

  /** `str.isdigit()` on ASCII characters. */
  predicate IsNumber(c: char) {
    '0' <= c <= '9'
  }

  predicate HasLetter(password: string) {
    exists i :: 0 <= i < |password| && IsLetter(password[i])
  }

  predicate HasNumber(password: string) {
    exists i :: 0 <= i < |password| && IsNumber(password[i])
  }

  /**
   * `validate_password`: the verdict and its message. A password is accepted
   * exactly when it has 6 to 128 characters, a letter and a digit, and
   * acceptance always comes with "Password is valid".
   */
  function ValidatePassword(password: string): (r: (bool, string))
    ensures r.0 <==> 6 <= |password| <= 128 && HasLetter(password) && HasNumber(password)
    ensures r.0 <==> r.1 == Valid
  {
    if |password| < 6 then (false, TooShort)
    else if |password| > 128 then (false, TooLong)
    else if !HasLetter(password) then (false, NoLetter)
    else if !HasNumber(password) then (false, NoNumber)
    else (true, Valid)
  }

  /** The message names the first failed check: too short, too long, no letter, no digit. */
  lemma MessagesInOrder(password: string)
    ensures ValidatePassword(password).1 == TooShort <==> |password| < 6
    ensures ValidatePassword(password).1 == TooLong <==> |password| > 128
    ensures ValidatePassword(password).1 == NoLetter <==> 6 <= |password| <= 128 && !HasLetter(password)
    ensures ValidatePassword(password).1 == NoNumber <==>
              6 <= |password| <= 128 && HasLetter(password) && !HasNumber(password)
  {
    assert TooShort != TooLong && TooShort != NoLetter && TooShort != NoNumber && TooShort != Valid;
    assert TooLong != NoLetter && TooLong != NoNumber && TooLong != Valid;
    assert NoLetter != NoNumber && NoLetter != Valid && NoNumber != Valid;
  }

  /** Exactly 128 characters is still accepted, though the message speaks of "less than 128". */
  lemma LengthBoundsInclusive(password: string)
    requires HasLetter(password) && HasNumber(password)
    ensures |password| == 128 ==> ValidatePassword(password) == (true, Valid)
    ensures |password| == 6 ==> ValidatePassword(password) == (true, Valid)
    ensures |password| == 129 ==> ValidatePassword(password) == (false, TooLong)
  {
  }
}
