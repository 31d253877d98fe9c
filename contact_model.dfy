/** The contact message document: its setters (trim, and lower-case on the
    email), its validators (required, maximum lengths, the email pattern) and
    its defaults. */
module ContactModel {
  import opened Text

  const NameMax := 50
  const SubjectMax := 100
  const MessageMax := 1000

  // ---------------------------------------------------------------- email pattern

  /** `/^\S+@\S+\.\S+$/`: no whitespace anywhere, and an `@` and a later `.`
      that split the address into three non-empty runs. */
  ghost predicate EmailPattern(s: string) {
    NoWs(s) && exists i, j :: 1 <= i && i + 2 <= j && j + 1 < |s| && s[i] == '@' && s[j] == '.'
  }

  /** The first index at or after `from` holding `c`. */
  function FirstFrom(s: string, c: char, from: nat): (r: Option<nat>)
    ensures r.Some? ==> from <= r.value < |s| && s[r.value] == c
    ensures r.Some? ==> forall k :: from <= k < r.value ==> s[k] != c
    ensures r.None? ==> forall k :: from <= k < |s| ==> s[k] != c
    decreases |s| - from
  {
    if from >= |s| then None
    else if s[from] == c then Some(from)
    else FirstFrom(s, c, from + 1)
  }

  /** The last index below `upto` holding `c`. */
  function LastBelow(s: string, c: char, upto: nat): (r: Option<nat>)
    requires upto <= |s|
    ensures r.Some? ==> r.value < upto && s[r.value] == c
    ensures r.Some? ==> forall k :: r.value < k < upto ==> s[k] != c
    ensures r.None? ==> forall k :: 0 <= k < upto ==> s[k] != c
  {
    if upto == 0 then None
    else if s[upto - 1] == c then Some(upto - 1)
    else LastBelow(s, c, upto - 1)
  }

  /** A direct check of the pattern: the first `@` after the first character
      and the last `.` before the last character must be at least two apart. */
  predicate EmailShaped(s: string) {
    && NoWs(s)
    && |s| >= 2
    && var at := FirstFrom(s, '@', 1);
       var dot := LastBelow(s, '.', |s| - 1);
       at.Some? && dot.Some? && at.value + 2 <= dot.value
  }

  /** The check accepts exactly the strings the regular expression matches. */
  lemma {:induction false} EmailShapedIff(s: string)
    ensures EmailShaped(s) <==> EmailPattern(s)
  {
    if EmailPattern(s) {
      var i, j :| 1 <= i && i + 2 <= j && j + 1 < |s| && s[i] == '@' && s[j] == '.';
      var at := FirstFrom(s, '@', 1);
      var dot := LastBelow(s, '.', |s| - 1);
      assert at.Some? && at.value <= i;
      assert dot.Some? && dot.value >= j;
    }
    if EmailShaped(s) {
      var i := FirstFrom(s, '@', 1).value;
      var j := LastBelow(s, '.', |s| - 1).value;
      assert 1 <= i && i + 2 <= j && j + 1 < |s| && s[i] == '@' && s[j] == '.';
    }
  }

  // ---------------------------------------------------------------- the document

  /** A stored contact message; `id` is the store-assigned identity. */
  datatype Contact = Contact(
    id: nat,
    name: string,
    email: string,
    subject: string,
    message: string,
    createdAt: int,
    isRead: bool,
    ipAddress: Option<string>)

  /** The email setters: `trim`, then `lowercase`. */
  function NormalizeEmail(e: string): (r: string)
    ensures forall k :: 0 <= k < |r| ==> !IsUpper(r[k])
    ensures |r| == |Trim(e)|
  {
    Lower(Trim(e))
  }

  /** The validators on the values the setters produced: every field present
      and non-empty, name at most 50, subject at most 100, message at most
      1000 characters, and the email matching the pattern. */
  predicate ContactAdmits(name: string, email: string, subject: string, message: string) {
    && 1 <= |name| <= NameMax
    && |email| >= 1 && EmailShaped(email)
    && 1 <= |subject| <= SubjectMax
    && 1 <= |message| <= MessageMax
  }

  /** `new Contact({...})` followed by validation: the trimmed (and, for the
      email, lower-cased) values, `isRead` false, `createdAt` now, and the
      address or null; `None` when a validator fails. */
  function MakeContact(id: nat, name: string, email: string, subject: string, message: string,
                       ip: Option<string>, now: int): (r: Option<Contact>)
    ensures r.Some? <==> ContactAdmits(Trim(name), NormalizeEmail(email), Trim(subject), Trim(message))
    ensures r.Some? ==> r.value == Contact(id, Trim(name), NormalizeEmail(email), Trim(subject),
                                           Trim(message), now, false, ip)
  {
    var c := Contact(id, Trim(name), NormalizeEmail(email), Trim(subject), Trim(message), now, false, ip);
    if ContactAdmits(c.name, c.email, c.subject, c.message) then Some(c) else None
  }

  /** A field that is blank after trimming is refused (`required`). */
  lemma {:induction false} BlankFieldRefused(id: nat, name: string, email: string, subject: string, message: string,
                          ip: Option<string>, now: int)
    requires Trim(name) == [] || Trim(email) == [] || Trim(subject) == [] || Trim(message) == []
    ensures MakeContact(id, name, email, subject, message, ip, now).None?
  {
  }

  /** What a stored contact satisfies. */
  predicate ContactWellFormed(c: Contact) {
    && ContactAdmits(c.name, c.email, c.subject, c.message)
    && (forall k :: 0 <= k < |c.email| ==> !IsUpper(c.email[k]))
  }

  lemma {:induction false} MadeContactWellFormed(id: nat, name: string, email: string, subject: string,
                                                 message: string, ip: Option<string>, now: int)
    requires MakeContact(id, name, email, subject, message, ip, now).Some?
    ensures ContactWellFormed(MakeContact(id, name, email, subject, message, ip, now).value)
    ensures !MakeContact(id, name, email, subject, message, ip, now).value.isRead
  {
  }
}
