/** The contact REST routes: POST `/` validates, saves and optionally mails a
    message; GET `/` lists the stored messages to an administrator. The mail
    transport is abstract: the model records which mails are attempted and
    what their variable parts are. */
module ContactRoutes {
  import opened Text
  import opened Query
  import opened ContactModel
  import BlogRoutes

  // ---------------------------------------------------------------- validation

  datatype ContactField = NameField | EmailField | SubjectField | MessageField

  /** A submitted body; `None` is an absent field, read as "" by the validators. */
  datatype ContactRequest = ContactRequest(
    name: Option<string>,
    email: Option<string>,
    subject: Option<string>,
    message: Option<string>)

  function Raw(o: Option<string>): string {
    if o.Some? then o.value else ""
  }

  /** The length checks run on the raw value, before the `trim()` and
      `escape()` sanitisers of the same chain. */
  predicate ContactFieldOk(req: ContactRequest, isEmail: string -> bool, f: ContactField) {
    match f
    case NameField => 2 <= |Raw(req.name)| <= 50
    case EmailField => isEmail(Raw(req.email))
    case SubjectField => 5 <= |Raw(req.subject)| <= 100
    case MessageField => 10 <= |Raw(req.message)| <= 1000
  }

  const ContactFieldOrder: seq<ContactField> := [NameField, EmailField, SubjectField, MessageField]

  lemma {:induction false} ContactFieldOrderComplete()
    ensures forall f :: f in ContactFieldOrder
  {
    forall f ensures f in ContactFieldOrder {
      match f
      case NameField => assert ContactFieldOrder[0] == f;
      case EmailField => assert ContactFieldOrder[1] == f;
      case SubjectField => assert ContactFieldOrder[2] == f;
      case MessageField => assert ContactFieldOrder[3] == f;
    }
  }

  /** `validationResult(req)`: the failing fields, in declaration order. */
  function ContactErrors(req: ContactRequest, isEmail: string -> bool): (r: seq<ContactField>)
    ensures forall f :: f in r <==> !ContactFieldOk(req, isEmail, f)
    ensures r == [] <==> forall f :: ContactFieldOk(req, isEmail, f)
  {
    var r := Where(ContactFieldOrder, (f: ContactField) => !ContactFieldOk(req, isEmail, f));
    ContactFieldOrderComplete();
    ContactFilterIff(req, isEmail, r);
    assert r != [] ==> r[0] in r;
    r
  }

  lemma {:induction false} ContactFilterIff(req: ContactRequest, isEmail: string -> bool, r: seq<ContactField>)
    requires forall f :: f in ContactFieldOrder
    requires r == Where(ContactFieldOrder, (f: ContactField) => !ContactFieldOk(req, isEmail, f))
    ensures forall f :: f in r <==> !ContactFieldOk(req, isEmail, f)
  {
    forall f ensures f in r <==> !ContactFieldOk(req, isEmail, f) {
      WhereIn(ContactFieldOrder, (f: ContactField) => !ContactFieldOk(req, isEmail, f), f);
    }
  }

  /** The request body after the sanitisers: trimmed then escaped name,
      subject and message, and the normalised email. */
  datatype Sanitized = Sanitized(name: string, email: string, subject: string, message: string)

  function Sanitize(req: ContactRequest, escape: string -> string, normalizeEmail: string -> string): Sanitized {
    Sanitized(escape(Trim(Raw(req.name))), normalizeEmail(Raw(req.email)),
              escape(Trim(Raw(req.subject))), escape(Trim(Raw(req.message))))
  }

  // ---------------------------------------------------------------- mail bodies

  const Special: set<char> := {'<', '>', '&', '"'}

  /** `.replace(/[<>&"]/g, "")`. */
  function StripSpecial(s: string): (r: string)
    ensures |r| <= |s|
    ensures forall c :: c in r <==> c in s && c !in Special
  {
    if s == [] then []
    else if s[0] in Special then StripSpecial(s[1..])
    else [s[0]] + StripSpecial(s[1..])
  }

  /** Stripping removes nothing but the four characters: a string without
      them is returned unchanged. */
  lemma {:induction false} StripSpecialIdentity(s: string)
    requires forall k :: 0 <= k < |s| ==> s[k] !in Special
    ensures StripSpecial(s) == s
  {
    if s != [] { StripSpecialIdentity(s[1..]); }
  }

  /** Stripping distributes over concatenation, so it keeps the order of
      the characters it does not remove. */
  lemma {:induction false} StripSpecialConcat(a: string, b: string)
    ensures StripSpecial(a + b) == StripSpecial(a) + StripSpecial(b)
  {
    if a == [] {
      assert a + b == b;
    } else {
      assert (a + b)[0] == a[0] && (a + b)[1..] == a[1..] + b;
      StripSpecialConcat(a[1..], b);
    }
  }

  /** Stripping twice is stripping once. */
  lemma {:induction false} StripSpecialIdempotent(s: string)
    ensures StripSpecial(StripSpecial(s)) == StripSpecial(s)
  {
    StripSpecialIdentity(StripSpecial(s));
  }

  /** The owner's copy: its recipient and subject, and the variable parts of
      its body. */
  datatype OwnerMail = OwnerMail(to: string, subject: string, name: string, email: string,
                                 subjectLine: string, ip: string, message: string)

  /** The auto-reply to the sender and what it quotes. */
  datatype AutoReply = AutoReply(to: string, name: string, subjectFragment: string)

  /** The mail configuration read from the environment. */
  datatype MailEnv = MailEnv(smtpUser: Option<string>, smtpPass: Option<string>, contactEmail: Option<string>)

  predicate MailConfigured(env: MailEnv) {
    Truthy(env.smtpUser) && Truthy(env.smtpPass)
  }

  /** The subject fragment of the auto-reply: the first 50 stripped characters,
      followed by "..." when the subject itself is longer than 50. */
  function SubjectFragment(subject: string): (r: string)
    ensures |subject| > 50 ==> r == Take(StripSpecial(subject), 50) + "..."
    ensures |subject| <= 50 ==> r == StripSpecial(subject)
  {
    Take(StripSpecial(subject), 50) + (if |subject| > 50 then "..." else "")
  }

  function MakeOwnerMail(env: MailEnv, c: Sanitized, ip: Option<string>): (m: OwnerMail)
    requires MailConfigured(env)
    ensures m.to == if Truthy(env.contactEmail) then env.contactEmail.value else env.smtpUser.value
    ensures |m.subjectLine| <= 100 && |m.message| <= 1000
    ensures forall k :: 0 <= k < |m.name| ==> m.name[k] !in Special
  {
    OwnerMail(OrElse(env.contactEmail, env.smtpUser).value,
              "Portfolio Contact: " + Take(c.subject, 100),
              StripSpecial(c.name), StripSpecial(c.email),
              Take(StripSpecial(c.subject), 100),
              if Truthy(ip) then ip.value else "Unknown",
              Take(StripSpecial(c.message), 1000))
  }

  function MakeAutoReply(c: Sanitized): (m: AutoReply)
    ensures m.to == c.email
    ensures |m.subjectFragment| <= 53
  {
    AutoReply(c.email, StripSpecial(c.name), SubjectFragment(c.subject))
  }

  // ---------------------------------------------------------------- replies

  datatype ContactReply =
    | ContactInvalid(fields: seq<ContactField>)
    | ContactFailed
    | ContactSent
    | ContactUnauthorized
    | ContactServerError
    | ContactListing(contacts: seq<Contact>, pagination: Pagination)

  function ContactStatus(r: ContactReply): (code: int)
    ensures r.ContactSent? <==> code == 201
  {
    match r
    case ContactInvalid(_) => 400
    case ContactFailed => 500
    case ContactSent => 201
    case ContactUnauthorized => 401
    case ContactServerError => 500
    case ContactListing(_, _) => 200
  }

  /** The `success` flag of the POST reply. */
  predicate Success(r: ContactReply) {
    r.ContactSent?
  }

  // ---------------------------------------------------------------- listing

  /** The GET gate: `!adminKey || adminKey !== ADMIN_KEY` refuses. */
  predicate ListingAdmits(header: Option<string>, adminKey: Option<string>) {
    Truthy(header) && header == adminKey
  }

  /** `Math.min(parseInt(limit) || 10, 50)`. */
  function ContactLimit(limit: Option<int>): (l: int)
    ensures l <= 50 && l != 0
    ensures limit.Some? && limit.value != 0 && limit.value <= 50 ==> l == limit.value
    ensures (limit.None? || limit.value == 0) ==> l == 10
  {
    Min(ParsedOr(limit, 10), 50)
  }

  function CreatedAt(c: Contact): int { c.createdAt }

  /** GET `/`: after the gate, the messages newest first from `(page - 1) *
      limit`, at most `|limit|` of them, and the page metadata over all of them. */
  function ListContacts(contacts: seq<Contact>, header: Option<string>, adminKey: Option<string>,
                        page: Option<int>, limit: Option<int>): (r: ContactReply)
    ensures !ListingAdmits(header, adminKey) <==> r.ContactUnauthorized?
    ensures var p, l := ParsedOr(page, 1), ContactLimit(limit);
      && (ListingAdmits(header, adminKey) && SkipOf(p, l) < 0 <==> r.ContactServerError?)
      && (r.ContactListing? ==> r.pagination == Paginate(p, l, |contacts|))
  {
    if !ListingAdmits(header, adminKey) then ContactUnauthorized
    else
      var p, l := ParsedOr(page, 1), ContactLimit(limit);
      var skip := SkipOf(p, l);
      if skip < 0 then ContactServerError
      else ContactListing(Window(SortDesc(contacts, CreatedAt), skip, l), Paginate(p, l, |contacts|))
  }

  /** The listed messages are stored messages, newest first. */
  lemma {:induction false} ListContactsContents(contacts: seq<Contact>, header: Option<string>, adminKey: Option<string>,
                             page: Option<int>, limit: Option<int>)
    requires ListContacts(contacts, header, adminKey, page, limit).ContactListing?
    ensures var r := ListContacts(contacts, header, adminKey, page, limit).contacts;
      && (forall i :: 0 <= i < |r| ==> r[i] in contacts)
      && (forall i, j :: 0 <= i < j < |r| ==> r[i].createdAt >= r[j].createdAt)
  {
    var p, l := ParsedOr(page, 1), ContactLimit(limit);
    ListedWindow(contacts, header, adminKey, page, limit);
    var w := Window(SortDesc(contacts, CreatedAt), SkipOf(p, l), l);
    SortedWindow(contacts, CreatedAt, SkipOf(p, l), l);
    forall i, j | 0 <= i < j < |w| ensures w[i].createdAt >= w[j].createdAt {
      assert CreatedAt(w[i]) >= CreatedAt(w[j]);
    }
  }

  lemma {:induction false} ListedWindow(contacts: seq<Contact>, header: Option<string>, adminKey: Option<string>,
                                        page: Option<int>, limit: Option<int>)
    requires ListContacts(contacts, header, adminKey, page, limit).ContactListing?
    ensures var p, l := ParsedOr(page, 1), ContactLimit(limit);
      && SkipOf(p, l) >= 0
      && ListContacts(contacts, header, adminKey, page, limit).contacts == Window(SortDesc(contacts, CreatedAt), SkipOf(p, l), l)
  {
  }

  /** A non-negative limit keeps a page to at most 50 messages. */
  lemma {:induction false} ListContactsCapped(contacts: seq<Contact>, header: Option<string>, adminKey: Option<string>,
                           page: Option<int>, limit: Option<int>)
    requires ListContacts(contacts, header, adminKey, page, limit).ContactListing?
    requires limit.None? || limit.value >= 0
    ensures |ListContacts(contacts, header, adminKey, page, limit).contacts| <= 50
  {
  }

  /** The cap does not hold for a negative limit: `Math.min(-100, 50)` is
      -100 and a store that reads a negative limit as its size returns up to
      100 messages on the first page. */
  lemma {:induction false} NegativeLimitPassesCap(contacts: seq<Contact>, header: Option<string>)
    requires |contacts| == 100 && Truthy(header)
    ensures |ListContacts(contacts, header, header, None, Some(-100)).contacts| == 100
  {
    SortDescMembers(contacts, CreatedAt);
  }

  /** The listing gate is stricter than the blog's: everything it admits the
      blog gate admits, but with no key configured and no header sent the
      blog gate lets the request through and this one does not. */
  lemma {:induction false} ContactGateStricter(header: Option<string>, adminKey: Option<string>)
    ensures ListingAdmits(header, adminKey) ==> BlogRoutes.BlogAdmits(header, adminKey)
    ensures !ListingAdmits(header, None)
    ensures BlogRoutes.BlogAdmits(None, None)
  {
  }

  // ---------------------------------------------------------------- the store

  /** What the stored messages satisfy: each passed the schema and has an
      identity below the next one to be assigned. */
  ghost predicate ValidContacts(contacts: seq<Contact>, nextId: nat) {
    forall i :: 0 <= i < |contacts| ==> ContactWellFormed(contacts[i]) && contacts[i].id < nextId
  }

  lemma {:induction false} AppendContactKeepsValid(contacts: seq<Contact>, nextId: nat, c: Contact)
    requires ValidContacts(contacts, nextId) && ContactWellFormed(c) && c.id == nextId
    ensures ValidContacts(contacts + [c], nextId + 1)
  {
    var r := contacts + [c];
    forall i | 0 <= i < |r| ensures ContactWellFormed(r[i]) && r[i].id < nextId + 1 {
      if i < |contacts| { assert r[i] == contacts[i]; }
    }
  }

  /** The `Contact` collection. */
  class ContactStore {
    var contacts: seq<Contact>
    var nextId: nat

    ghost predicate Valid()
      reads this
    {
      ValidContacts(contacts, nextId)
    }

    constructor ()
      ensures Valid() && contacts == []
    {
      contacts := [];
      nextId := 0;
    }

    /** `new Contact({...}).save()`: the document the setters build, appended
        when the schema admits it and the store is reachable. */
    method Save(c: Sanitized, ip: Option<string>, storeAvailable: bool, now: int) returns (saved: bool)
      requires Valid()
      modifies this
      ensures Valid()
      ensures var made := MakeContact(old(nextId), c.name, c.email, c.subject, c.message, ip, now);
        && (saved <==> made.Some? && storeAvailable)
        && (saved ==> contacts == old(contacts) + [made.value])
        && (!saved ==> contacts == old(contacts))
    {
      var made := MakeContact(nextId, c.name, c.email, c.subject, c.message, ip, now);
      if made.None? || !storeAvailable {
        return false;
      }
      MadeContactWellFormed(nextId, c.name, c.email, c.subject, c.message, ip, now);
      AppendContactKeepsValid(contacts, nextId, made.value);
      contacts := contacts + [made.value];
      nextId := nextId + 1;
      return true;
    }

    /** POST `/`: 400 with the failing fields when a validator fails; otherwise
        the sanitised message is saved (500 when the schema refuses it or the
        store is unavailable); after a save, the two mails are attempted only
        when SMTP is configured, and the reply is 201 whatever the mails do.
        The address is `req.ip || req.connection.remoteAddress`. */
    method Submit(req: ContactRequest, isEmail: string -> bool, escape: string -> string,
                  normalizeEmail: string -> string, reqIp: Option<string>, remote: Option<string>,
                  env: MailEnv, storeAvailable: bool, now: int)
      returns (reply: ContactReply, owner: Option<OwnerMail>, autoReply: Option<AutoReply>)
      requires Valid()
      modifies this
      ensures Valid()
      ensures ContactErrors(req, isEmail) != [] ==> reply == ContactInvalid(ContactErrors(req, isEmail))
      ensures ContactErrors(req, isEmail) == [] ==>
        var c := Sanitize(req, escape, normalizeEmail);
        var made := MakeContact(old(nextId), c.name, c.email, c.subject, c.message, OrElse(reqIp, remote), now);
        if made.None? || !storeAvailable then reply == ContactFailed
        else reply == ContactSent && contacts == old(contacts) + [made.value]
      ensures !reply.ContactSent? ==> contacts == old(contacts) && owner.None? && autoReply.None?
      ensures reply.ContactSent? ==>
        var c := Sanitize(req, escape, normalizeEmail);
        && (MailConfigured(env) ==>
              owner == Some(MakeOwnerMail(env, c, OrElse(reqIp, remote))) && autoReply == Some(MakeAutoReply(c)))
        && (!MailConfigured(env) ==> owner.None? && autoReply.None?)
    {
      owner, autoReply := None, None;
      var errors := ContactErrors(req, isEmail);
      if errors != [] {
        return ContactInvalid(errors), owner, autoReply;
      }
      var c := Sanitize(req, escape, normalizeEmail);
      var ip := OrElse(reqIp, remote);
      var saved := Save(c, ip, storeAvailable, now);
      if !saved {
        return ContactFailed, owner, autoReply;
      }
      if MailConfigured(env) {
        owner := Some(MakeOwnerMail(env, c, ip));
        autoReply := Some(MakeAutoReply(c));
      }
      return ContactSent, owner, autoReply;
    }
  }

  /** A name of two spaces passes the raw length check, is trimmed to nothing,
      and the save is refused: the request gets 500, not 400. */
  lemma {:induction false} BlankNamePassesValidation(req: ContactRequest, isEmail: string -> bool,
                                                      escape: string -> string, normalizeEmail: string -> string,
                                                      ip: Option<string>, now: int, id: nat)
    requires req.name == Some("  ") && escape("") == ""
    ensures ContactFieldOk(req, isEmail, NameField)
    ensures var c := Sanitize(req, escape, normalizeEmail);
      MakeContact(id, c.name, c.email, c.subject, c.message, ip, now).None?
  {
    var c := Sanitize(req, escape, normalizeEmail);
    assert Trim(Raw(req.name)) == "" by {
      assert StripStart(Raw(req.name), Whitespace) == "";
    }
    TrimOfUnpadded("");
  }
}
