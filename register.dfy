/**
  * The sign-up form (handleSubmit in src/app/register/page.tsx): an ordered chain of
  * checks on the pseudo and the passwords; only the first failure is shown, and the
  * request is sent only when all pass, with the trimmed pseudo.
  */
module Register {
  import opened JsText

  /** The JSON body of the POST to /api/auth/register. */
  datatype Submission = Submission(pseudo: string, password: string)

  datatype Outcome = Rejected(error: string) | Submitted(body: Submission)

  const NoPseudo := "Entre un pseudo"
  const PseudoTooShort := "Le pseudo doit faire au moins 2 caractères"
  const PseudoTooLong := "Le pseudo ne doit pas dépasser 20 caractères"
  const NoPassword := "Entre un mot de passe"
  const PasswordTooShort := "Le mot de passe doit faire au moins 4 caractères"
  const PasswordMismatch := "Les mots de passe ne correspondent pas"

  /** The checks of handleSubmit in order, lengths counted in UTF-16 code units. */
  function HandleSubmit(pseudo: string, password: string, confirmPassword: string): Outcome {
    var name := Trim(pseudo);
    if name == "" then Rejected(NoPseudo)
    else if Utf16Length(name) < 2 then Rejected(PseudoTooShort)
    else if Utf16Length(name) > 20 then Rejected(PseudoTooLong)
    else if password == "" then Rejected(NoPassword)
    else if Utf16Length(password) < 4 then Rejected(PasswordTooShort)
    else if password != confirmPassword then Rejected(PasswordMismatch)
    else Submitted(Submission(name, password))
  }

  /** The pseudo fits: 2 to 20 code units once trimmed. */
  predicate PseudoFits(pseudo: string) {
    2 <= Utf16Length(Trim(pseudo)) <= 20
  }

  /**
    * The form is sent exactly when the trimmed pseudo has 2 to 20 code units, the password
    * at least 4 and the confirmation repeats it; what is sent is the trimmed pseudo, with
    * no white space at either end, and the password as typed.
    */
  lemma SubmittedIff(pseudo: string, password: string, confirmPassword: string)
    ensures var r := HandleSubmit(pseudo, password, confirmPassword);
      && (r.Submitted? <==> PseudoFits(pseudo) && Utf16Length(password) >= 4 && password == confirmPassword)
      && (r.Submitted? ==>
            && r.body.pseudo == Trim(pseudo) && r.body.password == password
            && !IsSpace(r.body.pseudo[0]) && !IsSpace(r.body.pseudo[|r.body.pseudo| - 1]))
  {
    TrimShape(pseudo);
    assert Utf16Length("") == 0;
  }

  /**
    * Only the first failing check is reported: each message appears exactly when its
    * check fails and all the checks before it pass.
    */
  lemma FirstFailureReported(pseudo: string, password: string, confirmPassword: string)
    ensures var r, n := HandleSubmit(pseudo, password, confirmPassword), Utf16Length(Trim(pseudo));
      && (r == Rejected(NoPseudo) <==> Trim(pseudo) == "")
      && (r == Rejected(PseudoTooShort) <==> Trim(pseudo) != "" && n < 2)
      && (r == Rejected(PseudoTooLong) <==> n > 20)
      && (r == Rejected(NoPassword) <==> PseudoFits(pseudo) && password == "")
      && (r == Rejected(PasswordTooShort) <==> PseudoFits(pseudo) && password != "" && Utf16Length(password) < 4)
      && (r == Rejected(PasswordMismatch) <==> PseudoFits(pseudo) && Utf16Length(password) >= 4 && password != confirmPassword)
  {
    assert Utf16Length("") == 0;
  }

  /** A pseudo that differs only by surrounding white space is judged, and sent, the same. */
  lemma SurroundingSpaceIgnored(pseudo: string, password: string, confirmPassword: string)
    ensures HandleSubmit(Trim(pseudo), password, confirmPassword) == HandleSubmit(pseudo, password, confirmPassword)
  {
    TrimIdempotent(pseudo);
  }

  /** A pseudo of white space only is refused as missing, however long it is. */
  lemma BlankPseudoMissing(pseudo: string, password: string, confirmPassword: string)
    requires AllSpace(pseudo)
    ensures HandleSubmit(pseudo, password, confirmPassword) == Rejected(NoPseudo)
  {
    TrimEmptyIff(pseudo);
  }
}
