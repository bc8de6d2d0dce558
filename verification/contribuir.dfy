/** The contribution form: seven text fields (six required), an uploaded
    structure file with an exact extension check, a submission that checks
    the fields before the file, and the "contribute another" reset. */
module Contribuir {
  import opened Wrappers
  import Seqs
  import Visualizar

  datatype Field = Nome | Formula | Tipo | Funcao | Descricao | Email | Instituicao

  datatype ContribForm = ContribForm(
    nome: string, formula: string, tipo: string, funcao: string,
    descricao: string, email: string, instituicao: string)

  const EmptyForm := ContribForm("", "", "", "", "", "", "")

  /** `formData[field]`. */
  function Get(form: ContribForm, f: Field): string
  {
    match f
    case Nome => form.nome
    case Formula => form.formula
    case Tipo => form.tipo
    case Funcao => form.funcao
    case Descricao => form.descricao
    case Email => form.email
    case Instituicao => form.instituicao
  }

  /** handleInputChange: `{...prev, [field]: value}`. */
  function Set(form: ContribForm, f: Field, value: string): (r: ContribForm)
    ensures Get(r, f) == value
  {
    match f
    case Nome => form.(nome := value)
    case Formula => form.(formula := value)
    case Tipo => form.(tipo := value)
    case Funcao => form.(funcao := value)
    case Descricao => form.(descricao := value)
    case Email => form.(email := value)
    case Instituicao => form.(instituicao := value)
  }

  const RequiredFields := [Nome, Formula, Tipo, Funcao, Descricao, Email]

  const SupportedExtensions := ["pdb", "sdf", "mol", "xyz"]

  /** The upload check: the lower-cased text after the last dot must be one
      of the four extensions exactly. */
  predicate IsSupported(name: string): (r: bool)
    ensures r ==> Visualizar.IsSupported(name)
    ensures r ==> |Visualizar.FileExtension(name)| == 3
  {
    Visualizar.FileExtension(name) in SupportedExtensions
  }

  /** The required fields left empty, in the order they are checked. */
  function MissingFields(form: ContribForm): (r: seq<Field>)
    ensures forall i :: 0 <= i < |r| ==> r[i] in RequiredFields && Get(form, r[i]) == ""
    ensures forall i :: 0 <= i < |RequiredFields| && Get(form, RequiredFields[i]) == "" ==> RequiredFields[i] in r
  {
    Seqs.Filter(RequiredFields, f => Get(form, f) == "")
  }

  datatype ContribState = ContribState(form: ContribForm, uploadedFile: Option<string>, isSubmitting: bool, submitted: bool)

  const InitialContrib := ContribState(EmptyForm, None, false, false)

  /** handleFileUpload: a supported file replaces the current one; anything
      else leaves the current one in place. */
  function Upload(s: ContribState, picked: Option<string>): (r: ContribState)
    ensures picked.Some? && IsSupported(picked.value) ==> r == s.(uploadedFile := picked)
    ensures picked.None? || !IsSupported(picked.value) ==> r == s
  {
    match picked
    case None => s
    case Some(name) => if IsSupported(name) then s.(uploadedFile := picked) else s
  }

  /** What handleSubmit reports. */
  datatype SubmitOutcome = MissingRequired | MissingFile | Submitting

  /** handleSubmit: empty required fields are reported first, then a missing
      file; only then does submission start. */
  function Submit(s: ContribState): (r: (ContribState, SubmitOutcome))
    ensures r.1 == MissingRequired <==> exists f :: f in RequiredFields && Get(s.form, f) == ""
    ensures r.1 == MissingFile <==> (forall f :: f in RequiredFields ==> Get(s.form, f) != "") && s.uploadedFile.None?
    ensures r.1 == Submitting ==> r.0 == s.(isSubmitting := true)
    ensures r.1 != Submitting ==> r.0 == s
  {
    var missing := MissingFields(s.form);
    if |missing| > 0 then
      assert missing[0] in RequiredFields && Get(s.form, missing[0]) == "";
      (s, MissingRequired)
    else if s.uploadedFile.None? then
      AllFilledWhenNoneMissing(s.form);
      (s, MissingFile)
    else
      AllFilledWhenNoneMissing(s.form);
      (s.(isSubmitting := true), Submitting)
  }

  /** The timer's callback after a submission. */
  function Complete(s: ContribState): (r: ContribState)
    ensures !r.isSubmitting && r.submitted
    ensures r.form == s.form && r.uploadedFile == s.uploadedFile
  {
    s.(isSubmitting := false, submitted := true)
  }

  /** "Contribuir com Outra Molécula": back to an empty form with no file. */
  function ContributeAnother(s: ContribState): (r: ContribState)
    ensures !r.submitted && r.form == EmptyForm && r.uploadedFile.None?
    ensures r.isSubmitting == s.isSubmitting
  {
    s.(submitted := false, form := EmptyForm, uploadedFile := None)
  }

  // ---------------------------------------------------------------------------
  // Lemmas

  /** With nothing reported missing, every required field is filled. */
  lemma AllFilledWhenNoneMissing(form: ContribForm)
    requires |MissingFields(form)| == 0
    ensures forall f :: f in RequiredFields ==> Get(form, f) != ""
  {
    assert forall i :: 0 <= i < |RequiredFields| ==> RequiredFields[i] !in MissingFields(form);
  }

  /** handleInputChange changes the named field and no other. */
  lemma SetChangesOnlyThatField(form: ContribForm, f: Field, value: string, g: Field)
    ensures Get(Set(form, f, value), g) == if g == f then value else Get(form, g)
  {
  }

  /** The institution is optional: it never affects the outcome of a submission. */
  lemma InstitutionOptional(s: ContribState, value: string)
    ensures Submit(s.(form := Set(s.form, Instituicao, value))).1 == Submit(s).1
  {
    var t := s.(form := Set(s.form, Instituicao, value));
    assert forall f :: f in RequiredFields ==> Get(t.form, f) == Get(s.form, f);
  }

  /** Every file this form accepts, the view page accepts too. */
  lemma AcceptedHereAcceptedByView(name: string)
    ensures IsSupported(name) ==> Visualizar.IsSupported(name)
  {
    if IsSupported(name) {
      Visualizar.PlainExtensionOccurs(Visualizar.FileExtension(name));
    }
  }

  /** The converse fails: "file.db" passes the view page's check but not this one. */
  lemma ViewAcceptsMore()
    ensures Visualizar.IsSupported("file.db") && !IsSupported("file.db")
  {
    Visualizar.TailFragmentAccepted();
  }

  /** A rejected upload keeps the file already uploaded. */
  lemma RejectKeepsFile(s: ContribState, name: string)
    requires !IsSupported(name)
    ensures Upload(s, Some(name)).uploadedFile == s.uploadedFile
  {
  }

  /** A filled form with a file starts submitting, the timer completes it,
      and "contribute another" gets back to the initial state. */
  lemma SubmitCompleteAnother(s: ContribState)
    requires forall f :: f in RequiredFields ==> Get(s.form, f) != ""
    requires s.uploadedFile.Some?
    ensures Submit(s).1 == Submitting
    ensures ContributeAnother(Complete(Submit(s).0)) == InitialContrib
  {
  }
}
