/** The Contact page: the form's required fields and e-mail pattern, and the `submitted` flag
    that switches between the form and the confirmation. */
module Contact {
  import opened Text
  import opened Forms

  datatype ContactValues = ContactValues(name: string, email: string, message: string)

  datatype Field = Name | Email | Message

  predicate NoSpace(s: string) {
    forall i :: 0 <= i < |s| ==> !IsSpace(s[i])
  }

  /** `/^\S+@\S+$/i`: the whole value is a non-empty run of non-whitespace, an '@', and another
      non-empty run of non-whitespace, for some choice of that '@' (the first run may itself
      hold '@'). The `i` flag changes nothing, the pattern having no letters. */
  predicate MatchesEmailPattern(s: string) {
    exists k :: 0 < k < |s| - 1 && s[k] == '@' && NoSpace(s[..k]) && NoSpace(s[k + 1..])
  }

  /** The pattern accepts exactly the values without whitespace that have an '@' with at least
      one character on each side. */
  lemma EmailPatternCharacterised(s: string)
    ensures MatchesEmailPattern(s) <==> NoSpace(s) && exists k :: 0 < k < |s| - 1 && s[k] == '@'
  {
    if MatchesEmailPattern(s) {
      var k :| 0 < k < |s| - 1 && s[k] == '@' && NoSpace(s[..k]) && NoSpace(s[k + 1..]);
      forall i | 0 <= i < |s| ensures !IsSpace(s[i]) {
        if i < k { assert s[i] == s[..k][i]; }
        else if i > k { assert s[i] == s[k + 1..][i - k - 1]; }
      }
    }
  }

  lemma EmailExamples()
    ensures MatchesEmailPattern("a@b@c")
    ensures !MatchesEmailPattern("a b@c")
    ensures !MatchesEmailPattern("@b")
  {
    assert "a@b@c"[1] == '@' && NoSpace("a@b@c"[..1]) && NoSpace("a@b@c"[2..]);
    EmailPatternCharacterised("a b@c");
    assert IsSpace("a b@c"[1]);
  }

  /** The fields whose rules fail: each of the three is required, and a non-empty e-mail must
      also match the pattern. */
  function Errors(v: ContactValues): (errs: set<Field>)
    ensures Name in errs <==> v.name == ""
    ensures Email in errs <==> !MatchesEmailPattern(v.email)
    ensures Message in errs <==> v.message == ""
  {
    (if MissingText(false, v.name) then {Name} else {})
    + (if MissingText(false, v.email) || !MatchesEmailPattern(v.email) then {Email} else {})
    + (if MissingText(false, v.message) then {Message} else {})
  }

  /** The page: the form while `submitted` is false, the confirmation once it is true. */
  class ContactPage {
    var submitted: bool
    /** The values handed to `onSubmit`, which only logs them. */
    ghost var delivered: seq<ContactValues>

    constructor ()
      ensures !submitted && delivered == []
    {
      submitted := false;
      delivered := [];
    }

    /** "Send Message": onSubmit runs, and sets `submitted`, exactly when every rule passes. */
    method Submit(values: ContactValues)
      requires !submitted
      modifies this
      ensures submitted <==> Errors(values) == {}
      ensures delivered == if submitted then old(delivered) + [values] else old(delivered)
    {
      match HandleSubmit(values, Errors(values)) {
        case Submitted(data) =>
          delivered := delivered + [data];
          submitted := true;
        case _ =>
      }
    }

    /** "Send Another Message": back to the form. */
    method SendAnother()
      requires submitted
      modifies this`submitted
      ensures !submitted
    {
      submitted := false;
    }
  }
}
