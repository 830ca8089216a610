/** `POST /api/upload/template`: stores an uploaded card background and makes
    it the one active template of its type. The file's bytes, the directory
    it is written to and the clock are outside the model: the clock reading
    is the parameter `stamp` and the extension `path.extname` gives for the
    file's name the parameter `ext`. */
module TemplateUpload {
  import opened Store

  const MissingFieldsError := "File and type are required"
  const TemplatesUrl := "/uploads/templates/"
  const DefaultNameSuffix := " template"

  /** The JSON answer: the stored row, or a 400 with its message. */
  datatype TemplateResponse = Stored(template: Template) | BadRequest(error: string)

  /** The form fields the handler reads; `kind` is the `type` field and ""
      stands for a missing `type` or `name`. */
  datatype TemplateForm = TemplateForm(hasFile: bool, kind: string, name: string)

  /** `name || \`${type} template\``. */
  function TemplateName(name: string, kind: string): (r: string)
    ensures name != "" ==> r == name
    ensures name == "" ==> |r| == |kind| + |DefaultNameSuffix| && r[..|kind|] == kind && r[|kind|..] == DefaultNameSuffix
  {
    if name != "" then name else kind + DefaultNameSuffix
  }

  /** The public path of the stored file `${type}_${Date.now()}${ext}`. */
  function TemplateImagePath(kind: string, stamp: string, ext: string): (r: string)
    ensures |r| == |TemplatesUrl| + |kind| + 1 + |stamp| + |ext|
    ensures r[..|TemplatesUrl|] == TemplatesUrl
    ensures r[|TemplatesUrl|..|TemplatesUrl| + |kind|] == kind
    ensures r[|TemplatesUrl| + |kind|] == '_'
    ensures r[|TemplatesUrl| + |kind| + 1..|r| - |ext|] == stamp
    ensures r[|r| - |ext|..] == ext
  {
    var r := TemplatesUrl + kind + "_" + stamp + ext;
    assert r == TemplatesUrl + (kind + ("_" + (stamp + ext)));
    r
  }

  /** At most one active template of any one type, the rule the handler keeps
      so that card generation has a single background to pick. */
  predicate OneActivePerKind(rows: seq<Template>) {
    forall i, j :: 0 <= i < j < |rows| && rows[i].isActive && rows[j].isActive ==> rows[i].kind != rows[j].kind
  }

  /** The rows after a successful upload: the type's templates deactivated
      and the new one appended. */
  function AfterUpload(rows: seq<Template>, t: Template): (r: seq<Template>)
    ensures |r| == |rows| + 1 && r[|rows|] == t
    ensures forall i :: 0 <= i < |rows| ==> r[i].id == rows[i].id && r[i].kind == rows[i].kind
    ensures forall i :: 0 <= i < |rows| && rows[i].kind != t.kind ==> r[i] == rows[i]
    ensures forall i :: 0 <= i < |rows| && rows[i].kind == t.kind ==> r[i] == rows[i].(isActive := false)
    ensures t.isActive ==> forall i :: 0 <= i < |r| && r[i].kind == t.kind && r[i].isActive ==> i == |rows|
    ensures t.isActive && OneActivePerKind(rows) ==> OneActivePerKind(r)
  {
    Deactivated(rows, t.kind) + [t]
  }

  /** The whole handler as a value of the table before it: the answer, the
      rows and the next key afterwards. A request without a file or a type
      changes nothing; otherwise the answer is the new row, an active
      template of the requested type under the next key. */
  function UploadTemplateOutcome(rows: seq<Template>, nextId: nat, form: TemplateForm, ext: string, stamp: string)
    : (r: (TemplateResponse, seq<Template>, nat))
    ensures !form.hasFile || form.kind == "" ==> r == (BadRequest(MissingFieldsError), rows, nextId)
    ensures form.hasFile && form.kind != "" ==>
      && r.0.Stored?
      && r.0.template.id == nextId && r.0.template.isActive && r.0.template.kind == form.kind
      && r.0.template.name == TemplateName(form.name, form.kind)
      && r.0.template.imagePath == TemplateImagePath(form.kind, stamp, ext)
      && r.1 == AfterUpload(rows, r.0.template)
      && r.2 == nextId + 1
  {
    if !form.hasFile || form.kind == "" then (BadRequest(MissingFieldsError), rows, nextId)
    else
      var t := Template(nextId, TemplateName(form.name, form.kind), form.kind,
        TemplateImagePath(form.kind, stamp, ext), true);
      (Stored(t), AfterUpload(rows, t), nextId + 1)
  }

  /** The handler against the table: validate, deactivate the type's
      templates, create the new one. */
  method UploadTemplate(db: TemplateTable, form: TemplateForm, ext: string, stamp: string) returns (resp: TemplateResponse)
    requires db.Valid()
    modifies db
    ensures db.Valid()
    ensures (resp, db.rows, db.nextId) == UploadTemplateOutcome(old(db.rows), old(db.nextId), form, ext, stamp)
  {
    if !form.hasFile || form.kind == "" {
      return BadRequest(MissingFieldsError);
    }
    db.DeactivateKind(form.kind);
    var t := db.Create(TemplateName(form.name, form.kind), form.kind, TemplateImagePath(form.kind, stamp, ext), true);
    resp := Stored(t);
  }
}
