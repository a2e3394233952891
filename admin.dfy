/**
 * The project form of the admin page: the form fields, the project being edited, and the
 * three handlers that move between them (edit, submit, reset).
 */
module AdminPage {
  import opened Json
  import opened Store
  import opened Collection
  import opened Tags
  import Portfolio

  datatype Kind = Web | Mobile

  function KindName(k: Kind): string
  {
    match k
    case Web => "web"
    case Mobile => "mobile"
  }

  /** A listed project as the page holds it. */
  datatype PortfolioItem = PortfolioItem(id: string, title: string, description: string, image: Option<string>,
                                         technologies: seq<string>, kind: Kind, githubUrl: Option<string>,
                                         liveUrl: Option<string>, createdAt: string)

  /** The form's fields; the tags are one text. */
  datatype FormData = FormData(title: string, description: string, image: string, technologies: string,
                               kind: Kind, githubUrl: string, liveUrl: string)

  /** The form as `resetForm` leaves it: every text empty, the kind `web`. */
  const EmptyForm := FormData("", "", "", "", Web, "", "")

  /** `value || ''` for an optional text. */
  function OrEmpty(o: Option<string>): string
  {
    if o.None? then "" else o.value
  }

  /** The form `handleEdit` fills in from a project. */
  function Prefill(p: PortfolioItem): FormData
  {
    FormData(p.title, p.description, OrEmpty(p.image), JoinTags(p.technologies), p.kind,
             OrEmpty(p.githubUrl), OrEmpty(p.liveUrl))
  }

  /** `{ ...formData, technologies: techArray }`: what submit hands to save or update. */
  function Payload(f: FormData): (r: Fields)
    ensures IsDraft(r)
  {
    map["title" := Text(f.title), "description" := Text(f.description), "image" := Text(f.image),
        "technologies" := TextList(ParseTags(f.technologies)), "type" := Text(KindName(f.kind)),
        "githubUrl" := Text(f.githubUrl), "liveUrl" := Text(f.liveUrl)]
  }

  /** The fields of a project with every optional text written out, `''` when it is missing. */
  function ItemFields(p: PortfolioItem): Fields
  {
    map["title" := Text(p.title), "description" := Text(p.description), "image" := Text(OrEmpty(p.image)),
        "technologies" := TextList(p.technologies), "type" := Text(KindName(p.kind)),
        "githubUrl" := Text(OrEmpty(p.githubUrl)), "liveUrl" := Text(OrEmpty(p.liveUrl))]
  }

  /**
   * Opening a project for editing and submitting the form untouched sends the project's own
   * fields back, tags included, when its tags are tags the form can carry.
   */
  lemma EditSubmitKeepsFields(p: PortfolioItem)
    requires forall i :: 0 <= i < |p.technologies| ==> IsTag(p.technologies[i])
    ensures Payload(Prefill(p)) == ItemFields(p)
  {
    ParseJoin(p.technologies);
  }

  /** The prefill turns a missing image or link into `''` and keeps everything else. */
  lemma PrefillFields(p: PortfolioItem)
    ensures Prefill(p).image == (if p.image.Some? then p.image.value else "")
    ensures Prefill(p).githubUrl == (if p.githubUrl.Some? then p.githubUrl.value else "")
    ensures Prefill(p).liveUrl == (if p.liveUrl.Some? then p.liveUrl.value else "")
    ensures Prefill(p).title == p.title && Prefill(p).description == p.description && Prefill(p).kind == p.kind
  {
  }

  /**
   * Whether a submit gets through: the store answers and, when a project is being edited,
   * `ref` accepts its id.
   */
  predicate Goes(ok: bool, editing: Option<PortfolioItem>) {
    ok && (editing.None? || LegalPath(editing.value.id))
  }

  /**
   * `project.technologies` of a listed record, which the page casts to its project type without
   * checking: `None` when the record has no `technologies` list. The source then throws at its
   * first use, the admin list's `slice` (as does the public list's `map`, and later `join` in
   * `handleEdit`).
   */
  function ListedTags(r: Record): Option<seq<string>>
  {
    if "technologies" in r && r["technologies"].TextList? then Some(r["technologies"].items) else None
  }

  /** `project.technologies ?? []`: a record without a list shows and edits as no tags. */
  function ListedTagsOrEmpty(r: Record): seq<string>
  {
    if "technologies" in r && r["technologies"].TextList? then r["technologies"].items else []
  }

  /** The tag text `","` passes the form's `required` check and holds no tag. */
  lemma CommaHasNoTags()
    ensures ParseTags(",") == []
  {
    assert "," == "" + "," + "";
    ParseTagsAtComma("", "");
    ParseTagsPiece("");
  }

  /**
   * A project submitted with no tag is stored without a `technologies` list (the store keeps
   * no empty list), so rendering the listed project throws in the source.
   */
  lemma NoTagsListThrows(f: FormData, key: string, now: int)
    requires ParseTags(f.technologies) == []
    ensures "technologies" !in ToItem(key, Written(Payload(f), now))
    ensures ListedTags(ToItem(key, Written(Payload(f), now))) == None
  {
    var stored := Written(Payload(f), now);
    assert "technologies" !in stored;
    ToItemFields(key, stored, "technologies");
  }

  /** With the corrected reading, a listed project shows exactly the tags it was submitted with. */
  lemma ListedTagsShown(f: FormData, key: string, now: int)
    ensures ListedTagsOrEmpty(ToItem(key, Written(Payload(f), now))) == ParseTags(f.technologies)
  {
    var stored := Written(Payload(f), now);
    ToItemFields(key, stored, "technologies");
    if ParseTags(f.technologies) == [] {
      assert "technologies" !in stored;
    } else {
      assert stored["technologies"] == TextList(ParseTags(f.technologies));
    }
  }

  /**
   * Editing a listed project with the corrected reading gives back the tags it was submitted
   * with, none included.
   */
  lemma EditListedTags(f: FormData, key: string, now: int)
    ensures ParseTags(JoinTags(ListedTagsOrEmpty(ToItem(key, Written(Payload(f), now))))) == ParseTags(f.technologies)
  {
    var tags := ParseTags(f.technologies);
    ListedTagsShown(f, key, now);
    if tags == [] {
      ParseTagsPiece("");
    } else {
      ParseTagsAreTags(f.technologies);
      ParseJoin(tags);
    }
  }

  const UpdatedToast := "Project updated successfully!"
  const AddedToast := "Project added successfully!"
  const FailedToast := "Failed to save project"

  class ProjectForm {
    var formData: FormData
    var editingProject: Option<PortfolioItem>
    var dialogOpen: bool

    constructor ()
      ensures formData == EmptyForm && editingProject == None && !dialogOpen
    {
      formData, editingProject, dialogOpen := EmptyForm, None, false;
    }

    /** `handleEdit`: remember the project, fill the form from it, open the dialog. */
    method HandleEdit(p: PortfolioItem)
      modifies this
      ensures editingProject == Some(p) && formData == Prefill(p) && dialogOpen
    {
      editingProject := Some(p);
      formData := Prefill(p);
      dialogOpen := true;
    }

    /** `resetForm`: forget the project and empty the form; the dialog is left as it is. */
    method ResetForm()
      modifies this`editingProject, this`formData
      ensures editingProject == None && formData == EmptyForm
    {
      editingProject := None;
      formData := EmptyForm;
    }

    /**
     * `handleSubmit`: the form's payload patches the project being edited or is created as a
     * new one. On success the dialog closes and the form is reset; on failure the form, the
     * dialog and the store stay as they were. The toast text is returned.
     */
    method HandleSubmit(db: Database, now: int, clientNow: int, ok: bool) returns (toast: string)
      requires editingProject.Some? ==> editingProject.value.id != "" && '/' !in editingProject.value.id
      modifies this, db`tree
      ensures old(editingProject).Some? && Goes(ok, old(editingProject)) ==>
        db.tree == old(db.tree).With(PortfolioItems,
          UpdateChild(old(db.Subtree(PortfolioItems)), old(editingProject).value.id, Payload(old(formData))))
      ensures old(editingProject).None? && ok ==>
        exists key :: key !in old(db.Subtree(PortfolioItems)) &&
          db.tree == old(db.tree).With(PortfolioItems, old(db.Subtree(PortfolioItems))[key := Written(Payload(old(formData)), now)])
      ensures Goes(ok, old(editingProject)) ==> toast == (if old(editingProject).Some? then UpdatedToast else AddedToast)
      ensures Goes(ok, old(editingProject)) ==> formData == EmptyForm && editingProject == None && !dialogOpen
      ensures !Goes(ok, old(editingProject)) ==> toast == FailedToast && db.tree == old(db.tree)
      ensures !Goes(ok, old(editingProject)) ==> formData == old(formData) && editingProject == old(editingProject) && dialogOpen == old(dialogOpen)
      ensures old(db.Valid()) ==> db.Valid()
    {
      var payload := Payload(formData);
      var done: bool;
      if editingProject.Some? {
        var r := Portfolio.UpdatePortfolioItem(db, editingProject.value.id, payload, ok);
        done := r.Success?;
        toast := UpdatedToast;
      } else {
        var r := Portfolio.SavePortfolioItem(db, payload, now, clientNow, ok);
        done := r.Success?;
        toast := AddedToast;
      }
      if !done {
        return FailedToast;
      }
      dialogOpen := false;
      ResetForm();
    }
  }
}
