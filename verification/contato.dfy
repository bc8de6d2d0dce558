/** The contact form: five required text fields, a submission that starts
    only when all of them are filled, and the reset once it is sent. */
module Contato {
  import Seqs

  datatype ContactField = Nome | Email | Assunto | Tipo | Mensagem

  datatype ContactForm = ContactForm(nome: string, email: string, assunto: string, tipo: string, mensagem: string)

  const EmptyContact := ContactForm("", "", "", "", "")

  const RequiredContactFields := [Nome, Email, Assunto, Tipo, Mensagem]

  function Get(form: ContactForm, f: ContactField): string
  {
    match f
    case Nome => form.nome
    case Email => form.email
    case Assunto => form.assunto
    case Tipo => form.tipo
    case Mensagem => form.mensagem
  }

  /** handleInputChange: `{...prev, [field]: value}`. */
  function Set(form: ContactForm, f: ContactField, value: string): (r: ContactForm)
    ensures Get(r, f) == value
  {
    match f
    case Nome => form.(nome := value)
    case Email => form.(email := value)
    case Assunto => form.(assunto := value)
    case Tipo => form.(tipo := value)
    case Mensagem => form.(mensagem := value)
  }

  /** The required fields left empty, in the order they are checked. */
  function MissingFields(form: ContactForm): (r: seq<ContactField>)
    ensures forall i :: 0 <= i < |r| ==> Get(form, r[i]) == ""
    ensures forall i :: 0 <= i < |RequiredContactFields| && Get(form, RequiredContactFields[i]) == "" ==> RequiredContactFields[i] in r
  {
    Seqs.Filter(RequiredContactFields, f => Get(form, f) == "")
  }

  datatype ContactState = ContactState(form: ContactForm, isSubmitting: bool)

  const InitialContact := ContactState(EmptyContact, false)

  /** handleSubmit: with any field empty nothing happens (beyond a notice);
      otherwise submission starts. The result tells whether it started. */
  function Submit(s: ContactState): (r: (ContactState, bool))
    ensures r.1 <==> forall f :: Get(s.form, f) != ""
    ensures r.1 ==> r.0 == s.(isSubmitting := true)
    ensures !r.1 ==> r.0 == s
  {
    var missing := MissingFields(s.form);
    EveryFieldRequired(s.form);
    if |missing| > 0 then (s, false) else (s.(isSubmitting := true), true)
  }

  /** The timer's callback: submission over, every field emptied. */
  function Complete(s: ContactState): (r: ContactState)
    ensures !r.isSubmitting
    ensures forall f :: Get(r.form, f) == ""
  {
    ContactState(EmptyContact, false)
  }

  // ---------------------------------------------------------------------------
  // Lemmas

  /** Nothing is reported missing exactly when every one of the five fields is filled. */
  lemma EveryFieldRequired(form: ContactForm)
    ensures |MissingFields(form)| == 0 <==> forall f :: Get(form, f) != ""
  {
    var r := MissingFields(form);
    if |r| == 0 {
      forall f
        ensures Get(form, f) != ""
      {
        var i := FieldIndex(f);
        assert RequiredContactFields[i] !in r;
      }
    }
    assert |r| > 0 ==> Get(form, r[0]) == "";
  }

  /** The position of a field in the required list. */
  function FieldIndex(f: ContactField): (i: nat)
    ensures i < |RequiredContactFields| && RequiredContactFields[i] == f
  {
    match f
    case Nome => 0
    case Email => 1
    case Assunto => 2
    case Tipo => 3
    case Mensagem => 4
  }

  /** handleInputChange changes the named field and no other. */
  lemma SetChangesOnlyThatField(form: ContactForm, f: ContactField, value: string, g: ContactField)
    ensures Get(Set(form, f, value), g) == if g == f then value else Get(form, g)
  {
  }

  /** From the initial page, submitting with any field empty keeps
      isSubmitting false. */
  lemma IncompleteFormDoesNotSubmit(s: ContactState, f: ContactField)
    requires !s.isSubmitting && Get(s.form, f) == ""
    ensures !Submit(s).0.isSubmitting
  {
  }

  /** Filling every field, submitting and completing gets back to the initial page. */
  lemma FillSubmitComplete(form: ContactForm)
    requires forall f :: Get(form, f) != ""
    ensures Submit(ContactState(form, false)).1
    ensures Complete(Submit(ContactState(form, false)).0) == InitialContact
  {
  }
}
