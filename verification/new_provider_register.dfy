/**
 The new-provider sign-up (NewProviderRegister): a thirteen-field form, a
 read-only preview of it, and the multipart submission that leads to the
 success screen.
 */
module NewProviderRegister {
  import opened Text

  /** The thirteen form fields, named as the backend expects them. */
  datatype Key = PRNUM | PRADR1 | PRADR2 | PRADR3 | PRADR4 | PRCITY | PRST
    | PRZIP5 | PRZIP4 | PRZIP2 | PRTITL | ProviderName | ProviderEmail

  function KeyName(k: Key): string {
    match k
    case PRNUM => "PRNUM"
    case PRADR1 => "PRADR1"
    case PRADR2 => "PRADR2"
    case PRADR3 => "PRADR3"
    case PRADR4 => "PRADR4"
    case PRCITY => "PRCITY"
    case PRST => "PRST"
    case PRZIP5 => "PRZIP5"
    case PRZIP4 => "PRZIP4"
    case PRZIP2 => "PRZIP2"
    case PRTITL => "PRTITL"
    case ProviderName => "provider_name"
    case ProviderEmail => "provider_email"
  }

  /** The keys in the order the initial `formData` object lists them. */
  const FormKeys: seq<Key> := [PRNUM, PRADR1, PRADR2, PRADR3, PRADR4, PRCITY, PRST,
    PRZIP5, PRZIP4, PRZIP2, PRTITL, ProviderName, ProviderEmail]

  /** Where a key sits in the key order. */
  function KeyIndex(k: Key): (i: nat)
    ensures i < |FormKeys| && FormKeys[i] == k
  {
    match k
    case PRNUM => 0
    case PRADR1 => 1
    case PRADR2 => 2
    case PRADR3 => 3
    case PRADR4 => 4
    case PRCITY => 5
    case PRST => 6
    case PRZIP5 => 7
    case PRZIP4 => 8
    case PRZIP2 => 9
    case PRTITL => 10
    case ProviderName => 11
    case ProviderEmail => 12
  }

  /** Every key appears once in the key order. */
  lemma FormKeysListEveryKeyOnce()
    ensures |FormKeys| == 13
    ensures forall k: Key :: k in FormKeys
    ensures forall i, j :: 0 <= i < j < |FormKeys| ==> FormKeys[i] != FormKeys[j]
  {
    forall k: Key ensures k in FormKeys {
      assert FormKeys[KeyIndex(k)] == k;
    }
  }

  /** Different keys have different names. */
  lemma KeyNameInjective(a: Key, b: Key)
    ensures KeyName(a) == KeyName(b) <==> a == b
  {
  }

  type Form = map<Key, string>

  predicate Complete(f: Form) {
    forall k: Key :: k in f
  }

  const EmptyForm: Form := map k: Key | k in FormKeys :: ""

  lemma EmptyFormIsComplete()
    ensures Complete(EmptyForm)
  {
    FormKeysListEveryKeyOnce();
  }

  /** `handleChange`: only the named field takes the typed value. */
  function HandleChange(f: Form, k: Key, value: string): (r: Form)
    ensures k in r && r[k] == value
    ensures forall j :: j != k ==> (j in r <==> j in f) && (j in f ==> r[j] == f[j])
    ensures Complete(f) ==> Complete(r)
  {
    f[k := value]
  }

  // ---------------------------------------------------------------------------
  // Submission

  datatype FileInfo = FileInfo(name: string, mimeType: string, size: nat)

  /** One part of the multipart body. */
  datatype Part = TextPart(name: string, value: string) | FilePart(name: string, file: FileInfo)

  /** The `FormData` `handleSubmit` builds: every field in key order, then `w9Form` if a file was chosen. */
  function Payload(f: Form, w9: Option<FileInfo>): (r: seq<Part>)
    requires Complete(f)
    ensures |r| == |FormKeys| + (if w9.Some? then 1 else 0)
    ensures forall i :: 0 <= i < |FormKeys| ==> r[i] == TextPart(KeyName(FormKeys[i]), f[FormKeys[i]])
    ensures w9.Some? ==> r[|FormKeys|] == FilePart("w9Form", w9.value)
  {
    seq(|FormKeys|, i requires 0 <= i < |FormKeys| => TextPart(KeyName(FormKeys[i]), f[FormKeys[i]]))
    + (if w9.Some? then [FilePart("w9Form", w9.value)] else [])
  }

  /** Every field is sent exactly once, under its own name, with its current value. */
  lemma PayloadSendsEachFieldOnce(f: Form, w9: Option<FileInfo>, k: Key)
    requires Complete(f)
    ensures exists i :: 0 <= i < |Payload(f, w9)| && Payload(f, w9)[i] == TextPart(KeyName(k), f[k])
    ensures forall i, j :: 0 <= i < j < |Payload(f, w9)| ==> Payload(f, w9)[i].name != Payload(f, w9)[j].name
  {
    FormKeysListEveryKeyOnce();
    var p := Payload(f, w9);
    var i := KeyIndex(k);
    assert p[i] == TextPart(KeyName(k), f[k]);
    forall i, j | 0 <= i < j < |p| ensures p[i].name != p[j].name {
      if j < |FormKeys| {
        KeyNameInjective(FormKeys[i], FormKeys[j]);
      }
    }
  }

  // ---------------------------------------------------------------------------
  // Steps

  datatype Step = FormStep | PreviewStep | SuccessStep

  /** The form's submit handler (Continue → Preview). */
  function Continue(s: Step): (r: Step)
    ensures s == FormStep ==> r == PreviewStep
  {
    if s == FormStep then PreviewStep else s
  }

  /** "Back to Edit". */
  function Back(s: Step): (r: Step)
    ensures s == PreviewStep ==> r == FormStep
  {
    if s == PreviewStep then FormStep else s
  }

  datatype Reply = Ok | NotOk | Thrown

  const SuccessMessage := " Registration submitted successfully. Admin will review your request and send confirmation to your email."

  /** `handleSubmit` from the preview: the step and the success message afterwards. */
  function Submit(s: Step, message: string, reply: Reply): (r: (Step, string))
    ensures reply == Ok ==> r == (SuccessStep, SuccessMessage)
    ensures reply != Ok ==> r == (s, message)
  {
    if reply == Ok then (SuccessStep, SuccessMessage) else (s, message)
  }

  /** Editing and coming back preserves the preview step; only an ok reply leaves it, and then for good. */
  lemma StepMachine(message: string, reply: Reply)
    ensures Back(Continue(FormStep)) == FormStep
    ensures Continue(Back(PreviewStep)) == PreviewStep
    ensures Submit(PreviewStep, message, reply).0 == (if reply == Ok then SuccessStep else PreviewStep)
    ensures Continue(SuccessStep) == SuccessStep && Back(SuccessStep) == SuccessStep
  {
  }

  // ---------------------------------------------------------------------------
  // Preview

  /** The preview lines: each key with its value, or "―" when the value is empty. */
  function Preview(f: Form): (r: seq<(string, string)>)
    requires Complete(f)
    ensures |r| == |FormKeys|
    ensures forall i :: 0 <= i < |r| ==> r[i].0 == KeyName(FormKeys[i])
    ensures forall i :: 0 <= i < |r| ==> (r[i].1 == "\U{2015}" <==> f[FormKeys[i]] == "" || f[FormKeys[i]] == "\U{2015}")
    ensures forall i :: 0 <= i < |r| && f[FormKeys[i]] != "" ==> r[i].1 == f[FormKeys[i]]
  {
    seq(|FormKeys|, i requires 0 <= i < |FormKeys| => (KeyName(FormKeys[i]), if f[FormKeys[i]] == "" then "\U{2015}" else f[FormKeys[i]]))
  }
}
