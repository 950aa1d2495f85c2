/** The contact form's submit handler: name, phone and message are required
    (non-blank after `trim`), the email is optional; success clears the form. */
module Contact {

  datatype ContactForm = ContactForm(name: string, phone: string, email: string, message: string)

  /** The form as it starts and as a successful submission leaves it. */
  const EmptyForm: ContactForm := ContactForm("", "", "", "")

  /** The inputs' `maxLength` limits, which the browser enforces while typing. */
  predicate WithinLimits(f: ContactForm) {
    |f.name| <= 100 && |f.phone| <= 15 && |f.email| <= 255 && |f.message| <= 1000
  }

  /** The code points `String.prototype.trim` removes: ECMAScript's WhiteSpace
      (tab, vertical tab, form feed, space, no-break space, byte order mark and
      the other space separators) and LineTerminator (line feed, carriage
      return, line and paragraph separators). */
  predicate IsTrimmed(c: char) {
    || c == '\t' || c == '\n' || c == '\U{000B}' || c == '\U{000C}' || c == '\r' || c == ' '
    || c == '\U{00A0}' || c == '\U{1680}' || ('\U{2000}' <= c <= '\U{200A}')
    || c == '\U{2028}' || c == '\U{2029}' || c == '\U{202F}' || c == '\U{205F}'
    || c == '\U{3000}' || c == '\U{FEFF}'
  }

  /** Every character of `s` is one that `trim` removes. */
  ghost predicate Blank(s: string) {
    forall i :: 0 <= i < |s| ==> IsTrimmed(s[i])
  }

  /** `s` with its leading trimmable characters removed: a suffix of `s` that
      starts with a kept character, all of whose removed characters are
      trimmable. */
  function TrimStart(s: string): (r: string)
    ensures |r| <= |s| && r == s[|s| - |r|..]
    ensures r == [] || !IsTrimmed(r[0])
    ensures Blank(s[..|s| - |r|])
  {
    if s != [] && IsTrimmed(s[0]) then
      var r := TrimStart(s[1..]);
      assert r == s[|s| - |r|..] by {
        assert s[1..][|s| - 1 - |r|..] == s[|s| - |r|..];
      }
      BlankFront(s, |s| - |r|);
      r
    else s
  }

  /** `s` with its trailing trimmable characters removed: a prefix of `s` that
      ends with a kept character, all of whose removed characters are
      trimmable. */
  function TrimEnd(s: string): (r: string)
    ensures |r| <= |s| && r == s[..|r|]
    ensures r == [] || !IsTrimmed(r[|r| - 1])
    ensures Blank(s[|r|..])
  {
    if s != [] && IsTrimmed(s[|s| - 1]) then
      var r := TrimEnd(s[..|s| - 1]);
      BlankBack(s, |r|);
      r
    else s
  }

  /** A trimmable character followed by a blank run is a blank run. */
  lemma {:induction false} BlankFront(s: string, n: nat)
    requires 0 < n <= |s| && IsTrimmed(s[0]) && Blank(s[1..][..n - 1])
    ensures Blank(s[..n])
  {
    forall i | 0 <= i < n
      ensures IsTrimmed(s[..n][i])
    {
      if i > 0 {
        assert s[..n][i] == s[1..][..n - 1][i - 1];
      }
    }
  }

  /** A blank run followed by a trimmable last character is a blank run. */
  lemma {:induction false} BlankBack(s: string, n: nat)
    requires n < |s| && IsTrimmed(s[|s| - 1]) && Blank(s[..|s| - 1][n..])
    ensures Blank(s[n..])
  {
    forall i | 0 <= i < |s| - n
      ensures IsTrimmed(s[n..][i])
    {
      if i < |s| - 1 - n {
        assert s[n..][i] == s[..|s| - 1][n..][i];
      }
    }
  }

  /** `String.prototype.trim`: empty exactly for the blank strings (so `!s.trim()`
      tests blankness), and otherwise starting and ending with a kept
      character. */
  function Trim(s: string): (r: string)
    ensures r == "" <==> Blank(s)
    ensures r != "" ==> !IsTrimmed(r[0]) && !IsTrimmed(r[|r| - 1])
  {
    TrimBothEmptyIffBlank(s);
    TrimEnd(TrimStart(s))
  }

  /** Trimming both ends leaves nothing exactly when every character is
      trimmable. */
  lemma {:induction false} TrimBothEmptyIffBlank(s: string)
    ensures TrimEnd(TrimStart(s)) == "" <==> Blank(s)
  {
    var t := TrimStart(s);
    if TrimEnd(t) == "" {
      assert t[|TrimEnd(t)|..] == s[|s| - |t|..];
      BlankFrontAndRest(s, |s| - |t|);
    }
    if Blank(s) {
      TrimStartOfBlank(s);
    }
  }

  /** A string whose front and rest are both blank is blank. */
  lemma {:induction false} BlankFrontAndRest(s: string, cut: nat)
    requires cut <= |s| && Blank(s[..cut]) && Blank(s[cut..])
    ensures Blank(s)
  {
    assert s == s[..cut] + s[cut..];
    BlankConcat(s[..cut], s[cut..]);
  }

  /** A blank string trims away entirely from the front. */
  lemma {:induction false} TrimStartOfBlank(s: string)
    requires Blank(s)
    ensures TrimStart(s) == []
  {
    if s != [] {
      assert Blank(s[1..]) by {
        forall i | 0 <= i < |s[1..]|
          ensures IsTrimmed(s[1..][i])
        {
          assert s[1..][i] == s[i + 1];
        }
      }
      TrimStartOfBlank(s[1..]);
    }
  }

  lemma {:induction false} BlankConcat(a: string, b: string)
    requires Blank(a) && Blank(b)
    ensures Blank(a + b)
  {
    forall i | 0 <= i < |a + b|
      ensures IsTrimmed((a + b)[i])
    {
      if i < |a| {
        assert (a + b)[i] == a[i];
      } else {
        assert (a + b)[i] == b[i - |a|];
      }
    }
  }

  datatype Submission = Submission(accepted: bool, form: ContactForm)

  /** `handleSubmit`: reject (leaving the form as it is) when a required field
      trims to empty, otherwise accept and clear every field. */
  function HandleSubmit(f: ContactForm): (r: Submission)
    requires WithinLimits(f)
    ensures r.accepted <==> !Blank(f.name) && !Blank(f.phone) && !Blank(f.message)
    ensures !r.accepted ==> r.form == f
    ensures r.accepted ==> r.form == EmptyForm
    ensures WithinLimits(r.form)
  {
    if Trim(f.name) == "" || Trim(f.phone) == "" || Trim(f.message) == "" then
      Submission(false, f)
    else
      Submission(true, EmptyForm)
  }

  /** The email field never decides whether a submission is accepted. */
  lemma EmailNeverDecides(f: ContactForm, email: string)
    requires WithinLimits(f) && |email| <= 255
    ensures HandleSubmit(f.(email := email)).accepted == HandleSubmit(f).accepted
  {
  }

  /** Two submissions in a row are never both accepted: a success clears the
      name, and a rejection leaves the form as it was, to be rejected again. */
  lemma ResubmitRejected(f: ContactForm)
    requires WithinLimits(f)
    ensures !HandleSubmit(HandleSubmit(f).form).accepted
  {
  }
}
