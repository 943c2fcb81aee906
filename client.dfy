/**
 * The browser client: the add-contact form with its validation, the list of
 * the visible page and the pagination controls, as one component whose
 * state the handlers below update.
 *
 * Network calls are parameters. A listing request is answered by the API
 * service's `ListContacts` over `served`, the collection as it stands when
 * the request is served, and `fault` (any failure: a 500 reply or no reply
 * at all). A create or delete request is answered by a success flag.
 */
module Client {
  import opened Contacts
  import opened JsString
  import Server

  /** The page size the client asks for. */
  const Limit: Server.Pos := 5

  // ---------------------------------------------------------------------
  // The form and its validators
  // ---------------------------------------------------------------------

  datatype Field = Name | Phone | Email

  datatype Form = Form(name: string, phone: string, email: string) {
    function Get(f: Field): (v: string) {
      match f
      case Name => name
      case Phone => phone
      case Email => email
    }

    /** `{ ...form, [f]: v }` */
    function With(f: Field, v: string): (r: Form)
      ensures r.Get(f) == v
      ensures forall g :: g != f ==> r.Get(g) == Get(g)
    {
      match f
      case Name => this.(name := v)
      case Phone => this.(phone := v)
      case Email => this.(email := v)
    }
  }

  const EmptyForm := Form("", "", "")

  /** The name is required: `form.name.trim()` is not empty. */
  predicate NameOk(s: string) {
    Trim(s) != ""
  }

  lemma NameOkIff(s: string)
    ensures NameOk(s) <==> exists i :: 0 <= i < |s| && !IsSpace(s[i])
  {
  }

  /** `/^\d{10}$/`: exactly ten decimal digits and nothing else. */
  predicate PhoneOk(s: string) {
    |s| == 10 && forall i :: 0 <= i < |s| ==> IsDigit(s[i])
  }

  /**
   * What `/^\S+@\S+\.\S+$/` matches: `s` splits as A `@` B `.` C with A, B
   * and C non-empty runs of non-whitespace characters.
   */
  ghost predicate EmailPattern(s: string) {
    exists i, j ::
      && 0 < i && i + 1 < j && j + 1 < |s|
      && s[i] == '@' && s[j] == '.'
      && NoSpace(s[..i]) && NoSpace(s[i + 1..j]) && NoSpace(s[j + 1..])
  }

  /** The first position at or after `from` that holds `c`. */
  function FirstAt(s: string, c: char, from: nat): (r: Option<nat>)
    decreases |s| - from
    ensures r.Some? ==> from <= r.value < |s| && s[r.value] == c
    ensures r.Some? ==> forall i :: from <= i < r.value ==> s[i] != c
    ensures r.None? ==> forall i :: from <= i < |s| ==> s[i] != c
  {
    if from >= |s| then None
    else if s[from] == c then Some(from)
    else FirstAt(s, c, from + 1)
  }

  /** The last position before `bound` that holds `c`. */
  function LastBefore(s: string, c: char, bound: nat): (r: Option<nat>)
    requires bound <= |s|
    ensures r.Some? ==> r.value < bound && s[r.value] == c
    ensures r.Some? ==> forall i :: r.value < i < bound ==> s[i] != c
    ensures r.None? ==> forall i :: 0 <= i < bound ==> s[i] != c
  {
    if bound == 0 then None
    else if s[bound - 1] == c then Some(bound - 1)
    else LastBefore(s, c, bound - 1)
  }

  /**
   * The email check: no whitespace, an `@` somewhere after the first
   * character, and a `.` after it with at least one character on each side.
   */
  predicate EmailOk(s: string) {
    && NoSpace(s)
    && |s| > 0
    && var at := FirstAt(s, '@', 1);
    && var dot := LastBefore(s, '.', |s| - 1);
    && at.Some? && dot.Some? && at.value + 1 < dot.value
  }

  /** The email check accepts exactly the strings the pattern matches. */
  lemma EmailOkIffPattern(s: string)
    ensures EmailOk(s) <==> EmailPattern(s)
  {
  }

  /** The phone examples: five digits are refused, ten are accepted. */
  lemma PhoneExamples()
    ensures !PhoneOk("12345") && PhoneOk("1234567890")
  {
  }

  /** The email examples: "a@b.c" is accepted, "abc" is refused. */
  lemma EmailExamples()
    ensures EmailOk("a@b.c") && !EmailOk("abc")
  {
  }

  /** The name examples: blank names are refused, padded ones accepted. */
  lemma NameExamples()
    ensures !NameOk("") && !NameOk("  ") && NameOk(" Ann ")
  {
  }

  /** Field `f` of the form satisfies its rule. */
  predicate Passes(form: Form, f: Field) {
    match f
    case Name => NameOk(form.name)
    case Phone => PhoneOk(form.phone)
    case Email => EmailOk(form.email)
  }

  predicate FormOk(form: Form) {
    Passes(form, Name) && Passes(form, Phone) && Passes(form, Email)
  }

  function ErrorMessage(f: Field): (message: string) {
    match f
    case Name => "Name is required"
    case Phone => "Phone must be 10 digits"
    case Email => "Invalid email format"
  }

  // ---------------------------------------------------------------------
  // Status banner and the listing reply
  // ---------------------------------------------------------------------

  datatype Kind = Plain | Success | Failure

  /** `status`: a message and its kind; the empty banner is hidden. */
  datatype Banner = Banner(message: string, kind: Kind)

  const NoBanner := Banner("", Plain)
  const LoadFailed := Banner("Failed to load contacts", Failure)
  const Added := Banner("Contact added successfully", Success)
  const SaveFailed := Banner("Failed to save contact", Failure)
  const Deleted := Banner("Contact deleted successfully", Success)
  const DeleteFailed := Banner("Failed to delete contact", Failure)

  /** The reply to `GET /api/contacts?page=<page>&limit=5`. */
  function ListReply(page: Server.Pos, served: seq<Contact>, fault: Option<string>): (r: Server.Response) {
    Server.ListContacts(served, Server.Query(Some(page), Some(Limit)), fault)
  }

  /** The request library resolves (and does not throw) on a 2xx reply. */
  predicate Resolves(r: Server.Response) {
    200 <= r.status < 300 && r.body.ListBody?
  }

  /**
   * A listing reply from a working service resolves and carries the page
   * that was asked for, at most a page's worth of contacts, and the page
   * count of the whole collection; a failing one does not resolve.
   */
  lemma ListReplyShape(page: Server.Pos, served: seq<Contact>, fault: Option<string>)
    ensures var r := ListReply(page, served, fault);
      && (Resolves(r) <==> fault.None?)
      && (Resolves(r) ==>
           && r.body.currentPage == page
           && |r.body.contacts| <= Limit
           && r.body.totalPages == Server.CeilDiv(|served|, Limit))
  {
  }

  /**
   * With no contacts the service reports zero pages, so page 1 differs from
   * the page count and the Next button stays enabled.
   */
  lemma EmptyBookLeavesNextEnabled()
    ensures var r := ListReply(1, [], None);
      r.body.totalPages == 0 && r.body.currentPage != r.body.totalPages
  {
  }

  class App {
    var contacts: seq<Contact>
    var status: Banner
    var form: Form
    var errors: map<Field, string>
    var currentPage: int
    var totalPages: int

    ghost predicate Valid()
      reads this
    {
      currentPage >= 1 && totalPages >= 0 && |contacts| <= Limit
    }

    constructor ()
      ensures Valid()
      ensures contacts == [] && status == NoBanner && form == EmptyForm && errors == map[]
      ensures currentPage == 1 && totalPages == 1
    {
      contacts, status, form, errors := [], NoBanner, EmptyForm, map[];
      currentPage, totalPages := 1, 1;
    }

    /** The Prev button is disabled on the first page. */
    predicate PrevDisabled()
      reads this
    {
      currentPage == 1
    }

    /** The Next button is disabled on the last known page. */
    predicate NextDisabled()
      reads this
    {
      currentPage == totalPages
    }

    /**
     * `fetchContacts(page)`: a resolved reply replaces the list, the page
     * count and the current page; a failed one only sets the error banner.
     */
    method FetchContacts(page: Server.Pos, served: seq<Contact>, fault: Option<string>)
      requires Valid()
      modifies this`contacts, this`totalPages, this`currentPage, this`status
      ensures Valid()
      ensures var r := ListReply(page, served, fault);
        if Resolves(r) then
          && contacts == r.body.contacts && totalPages == r.body.totalPages
          && currentPage == r.body.currentPage && status == old(status)
        else
          && contacts == old(contacts) && totalPages == old(totalPages)
          && currentPage == old(currentPage) && status == LoadFailed
      ensures fault.None? ==> currentPage == page
      ensures fault.Some? ==> currentPage == old(currentPage)
    {
      var r := ListReply(page, served, fault);
      ListReplyShape(page, served, fault);
      if Resolves(r) {
        contacts := r.body.contacts;
        totalPages := r.body.totalPages;
        currentPage := r.body.currentPage;
      } else {
        status := LoadFailed;
      }
    }

    /**
     * `handleChange`: the edited field takes the new value; that field's
     * error message, if it is showing, is blanked; nothing else changes.
     */
    method HandleChange(f: Field, value: string)
      modifies this`form, this`errors
      ensures form.Get(f) == value
      ensures forall g :: g != f ==> form.Get(g) == old(form).Get(g)
      ensures errors.Keys == old(errors).Keys
      ensures f in old(errors) ==> errors[f] == ""
      ensures forall g :: g in errors && g != f ==> errors[g] == old(errors)[g]
    {
      form := form.With(f, value);
      if f in errors && errors[f] != "" {
        errors := errors[f := ""];
      }
    }

    /**
     * `validate`: the errors become exactly one message per failing field,
     * replacing whatever was there, and the answer is whether none failed.
     */
    method Validate() returns (ok: bool)
      modifies this`errors
      ensures forall f :: f in errors <==> !Passes(form, f)
      ensures forall f :: f in errors ==> errors[f] == ErrorMessage(f)
      ensures ok <==> FormOk(form)
    {
      var newErrors: map<Field, string> := map[];
      if !NameOk(form.name) {
        newErrors := newErrors[Name := ErrorMessage(Name)];
      }
      if !PhoneOk(form.phone) {
        newErrors := newErrors[Phone := ErrorMessage(Phone)];
      }
      if !EmailOk(form.email) {
        newErrors := newErrors[Email := ErrorMessage(Email)];
      }
      forall f: Field
        ensures f in newErrors <==> !Passes(form, f)
        ensures f in newErrors ==> newErrors[f] == ErrorMessage(f)
      {
        match f
        case Name =>
        case Phone =>
        case Email =>
      }
      errors := newErrors;
      ok := |newErrors.Keys| == 0;
    }

    /**
     * `handleSubmit`: a form that fails validation sends nothing and stays
     * as it is. A valid form is sent; when the create succeeds the form is
     * cleared and the current page is fetched again, so the page number
     * does not change; when it fails the form is kept and the error banner
     * shows. `sent` is the request body, if a request was made.
     */
    method HandleSubmit(createOk: bool, served: seq<Contact>, fault: Option<string>) returns (sent: Option<Form>)
      requires Valid()
      modifies this
      ensures Valid()
      ensures sent.Some? <==> FormOk(old(form))
      ensures sent.Some? ==> sent.value == old(form)
      ensures forall f :: f in errors <==> !Passes(old(form), f)
      ensures currentPage == old(currentPage)
      ensures sent.None? ==>
        && form == old(form) && contacts == old(contacts) && totalPages == old(totalPages)
        && status == old(status)
      ensures sent.Some? && !createOk ==>
        && form == old(form) && contacts == old(contacts) && totalPages == old(totalPages)
        && status == SaveFailed
      ensures sent.Some? && createOk ==>
        && form == EmptyForm
        && var r := ListReply(old(currentPage), served, fault);
        && (Resolves(r) ==> contacts == r.body.contacts && totalPages == r.body.totalPages && status == Added)
        && (!Resolves(r) ==> contacts == old(contacts) && totalPages == old(totalPages) && status == LoadFailed)
    {
      var ok := Validate();
      if !ok {
        return None;
      }
      sent := Some(form);
      if createOk {
        status := Added;
        form := EmptyForm;
        FetchContacts(currentPage, served, fault);
      } else {
        status := SaveFailed;
      }
    }

    /** The page a successful delete leads to: one back when its last contact went, else the same. */
    function PageAfterDelete(): (p: int)
      reads this
      ensures p == currentPage - 1 <==> |contacts| == 1 && currentPage > 1
      ensures p != currentPage - 1 ==> p == currentPage
    {
      if |contacts| == 1 && currentPage > 1 then currentPage - 1 else currentPage
    }

    /**
     * `handleDelete`: a declined confirmation changes nothing and sends
     * nothing. A failed delete only shows the error banner. A successful
     * one moves back a page when the visible page held just that contact
     * and was not the first, and fetches the page it is then on.
     */
    method HandleDelete(id: Id, confirmed: bool, deleteOk: bool, served: seq<Contact>, fault: Option<string>)
      returns (sent: Option<Id>)
      requires Valid()
      modifies this
      ensures Valid()
      ensures sent.Some? <==> confirmed
      ensures sent.Some? ==> sent.value == id
      ensures form == old(form) && errors == old(errors)
      ensures !confirmed ==>
        && contacts == old(contacts) && status == old(status)
        && currentPage == old(currentPage) && totalPages == old(totalPages)
      ensures confirmed && !deleteOk ==>
        && contacts == old(contacts) && status == DeleteFailed
        && currentPage == old(currentPage) && totalPages == old(totalPages)
      ensures confirmed && deleteOk ==>
        && currentPage == old(PageAfterDelete())
        && var r := ListReply(old(PageAfterDelete()), served, fault);
        && (Resolves(r) ==> contacts == r.body.contacts && totalPages == r.body.totalPages && status == Deleted)
        && (!Resolves(r) ==> contacts == old(contacts) && totalPages == old(totalPages) && status == LoadFailed)
    {
      if !confirmed {
        return None;
      }
      sent := Some(id);
      if !deleteOk {
        status := DeleteFailed;
        return;
      }
      var target := PageAfterDelete();
      currentPage := target;
      status := Deleted;
      FetchContacts(target, served, fault);
    }

    /** Prev: one page back, then that page is fetched. */
    method Prev(served: seq<Contact>, fault: Option<string>)
      requires Valid() && !PrevDisabled()
      modifies this`contacts, this`totalPages, this`currentPage, this`status
      ensures Valid()
      ensures currentPage == old(currentPage) - 1
      ensures var r := ListReply(old(currentPage) - 1, served, fault);
        && (Resolves(r) ==> contacts == r.body.contacts && totalPages == r.body.totalPages && status == old(status))
        && (!Resolves(r) ==> contacts == old(contacts) && totalPages == old(totalPages) && status == LoadFailed)
    {
      currentPage := currentPage - 1;
      FetchContacts(currentPage, served, fault);
    }

    /** Next: one page on, then that page is fetched. */
    method Next(served: seq<Contact>, fault: Option<string>)
      requires Valid() && !NextDisabled()
      modifies this`contacts, this`totalPages, this`currentPage, this`status
      ensures Valid()
      ensures currentPage == old(currentPage) + 1
      ensures var r := ListReply(old(currentPage) + 1, served, fault);
        && (Resolves(r) ==> contacts == r.body.contacts && totalPages == r.body.totalPages && status == old(status))
        && (!Resolves(r) ==> contacts == old(contacts) && totalPages == old(totalPages) && status == LoadFailed)
    {
      currentPage := currentPage + 1;
      FetchContacts(currentPage, served, fault);
    }
  }
}
