/**
 * The "Add Project" dialog of src/components/AddProjectModal.tsx: a form
 * whose fields the inputs overwrite one at a time, a gallery list the
 * dialog grows, trims and rewrites by position, and a submit that hands
 * the form to the page and closes the dialog.
 */
module AddProjectModal {
  import opened Seqs
  import opened Options
  import PortfolioConfig

  /** The form state; unlike a stored project, the long description and the gallery are always present. */
  datatype ProjectForm = ProjectForm(
    title: string,
    description: string,
    imageUrl: string,
    category: string,
    link: string,
    fullDescription: string,
    additionalImages: seq<string>)

  const DefaultImage: string := "https://images.unsplash.com/photo-1634942537034-2531766767d1?auto=format&fit=crop&q=80"

  /** The form a freshly opened dialog shows: a stock cover image, the category "Design", everything else empty. */
  const InitialForm: ProjectForm := ProjectForm("", "", DefaultImage, "Design", "", "", [])

  /** The single-valued inputs of the form. */
  datatype FormField = ImageField | TitleField | DescriptionField | FullDescriptionField | CategoryField | LinkField

  function Read(form: ProjectForm, f: FormField): string {
    match f
    case ImageField => form.imageUrl
    case TitleField => form.title
    case DescriptionField => form.description
    case FullDescriptionField => form.fullDescription
    case CategoryField => form.category
    case LinkField => form.link
  }

  /** `{ ...prev, [field]: text }`: the input's own field takes the text, nothing else changes. */
  function WithField(form: ProjectForm, f: FormField, text: string): (r: ProjectForm)
    ensures Read(r, f) == text
    ensures forall g :: g != f ==> Read(r, g) == Read(form, g)
    ensures r.additionalImages == form.additionalImages
  {
    match f
    case ImageField => form.(imageUrl := text)
    case TitleField => form.(title := text)
    case DescriptionField => form.(description := text)
    case FullDescriptionField => form.(fullDescription := text)
    case CategoryField => form.(category := text)
    case LinkField => form.(link := text)
  }

  /** Two forms that agree on every input and on the gallery are the same form. */
  lemma FormsEqual(a: ProjectForm, b: ProjectForm)
    requires forall f :: Read(a, f) == Read(b, f)
    requires a.additionalImages == b.additionalImages
    ensures a == b
  {
    assert Read(a, ImageField) == Read(b, ImageField) && Read(a, TitleField) == Read(b, TitleField);
    assert Read(a, DescriptionField) == Read(b, DescriptionField);
    assert Read(a, FullDescriptionField) == Read(b, FullDescriptionField);
    assert Read(a, CategoryField) == Read(b, CategoryField) && Read(a, LinkField) == Read(b, LinkField);
  }

  /** Typing into one input and then typing its old text back restores the form. */
  lemma WithFieldUndo(form: ProjectForm, f: FormField, text: string)
    ensures WithField(WithField(form, f, text), f, Read(form, f)) == form
  {
    var r := WithField(WithField(form, f, text), f, Read(form, f));
    forall g ensures Read(r, g) == Read(form, g) {
    }
    FormsEqual(r, form);
  }

  predicate IsAsciiLetter(c: char) {
    'a' <= c <= 'z' || 'A' <= c <= 'Z'
  }

  /** A character that may follow the first letter of a URL scheme. */
  predicate SchemeChar(c: char) {
    IsAsciiLetter(c) || '0' <= c <= '9' || c == '+' || c == '-' || c == '.'
  }

  /** Scheme characters up to a colon. */
  predicate SchemeTail(s: string)
    decreases |s|
  {
    s != [] && (s[0] == ':' || (SchemeChar(s[0]) && SchemeTail(s[1..])))
  }

  /** The link opens with a URL scheme and its colon, as an absolute URL must (`https:`, `mailto:`). */
  predicate HasScheme(s: string) {
    s != [] && IsAsciiLetter(s[0]) && SchemeTail(s[1..])
  }

  /** A scheme is a letter and then scheme characters, ended by the first colon of the link. */
  lemma {:induction false} SchemeTailSpec(s: string)
    ensures SchemeTail(s) <==> exists i :: 0 <= i < |s| && s[i] == ':' && forall m :: 0 <= m < i ==> SchemeChar(s[m])
    decreases |s|
  {
    if s != [] {
      SchemeTailSpec(s[1..]);
      if SchemeTail(s) && s[0] != ':' {
        var i :| 0 <= i < |s[1..]| && s[1..][i] == ':' && forall m :: 0 <= m < i ==> SchemeChar(s[1..][m]);
        assert s[i + 1] == ':' && forall m :: 0 <= m < i + 1 ==> SchemeChar(s[m]);
      }
      if exists i :: 0 <= i < |s| && s[i] == ':' && forall m :: 0 <= m < i ==> SchemeChar(s[m]) {
        var i :| 0 <= i < |s| && s[i] == ':' && forall m :: 0 <= m < i ==> SchemeChar(s[m]);
        if i > 0 {
          assert !SchemeChar(':');
          assert s[1..][i - 1] == ':' && forall m :: 0 <= m < i - 1 ==> SchemeChar(s[1..][m]);
        }
      }
    }
  }

  lemma HasSchemeSpec(s: string)
    ensures HasScheme(s) <==>
      exists i :: 1 <= i < |s| && s[i] == ':' && IsAsciiLetter(s[0]) && forall m :: 1 <= m < i ==> SchemeChar(s[m])
  {
    if s != [] {
      SchemeTailSpec(s[1..]);
      if HasScheme(s) {
        var i :| 0 <= i < |s[1..]| && s[1..][i] == ':' && forall m :: 0 <= m < i ==> SchemeChar(s[1..][m]);
        assert s[i + 1] == ':' && forall m :: 1 <= m < i + 1 ==> SchemeChar(s[m]);
      }
      if exists i :: 1 <= i < |s| && s[i] == ':' && IsAsciiLetter(s[0]) && forall m :: 1 <= m < i ==> SchemeChar(s[m]) {
        var i :| 1 <= i < |s| && s[i] == ':' && IsAsciiLetter(s[0]) && forall m :: 1 <= m < i ==> SchemeChar(s[m]);
        assert s[1..][i - 1] == ':' && forall m :: 0 <= m < i - 1 ==> SchemeChar(s[1..][m]);
      }
    }
  }

  /** A link without a colon has no scheme. */
  lemma NoColonNoScheme(s: string)
    requires ':' !in s
    ensures !HasScheme(s)
  {
    HasSchemeSpec(s);
  }

  /**
   * The browser submits the form only when every input marked `required`
   * is filled (title, short description, category and link) and the link
   * input, of type `url`, holds an absolute URL. The long description and
   * the images are optional.
   */
  predicate Submittable(form: ProjectForm) {
    form.title != "" && form.description != "" && form.category != "" && form.link != "" && HasScheme(form.link)
  }

  /** The project object the page receives: the form itself, so both optional fields are present. */
  function ToProject(form: ProjectForm): (p: PortfolioConfig.Project)
    ensures p.fullDescription == Some(form.fullDescription)
    ensures p.additionalImages == Some(form.additionalImages)
    ensures p.title == form.title && p.description == form.description && p.imageUrl == form.imageUrl
    ensures p.category == form.category && p.link == form.link
  {
    PortfolioConfig.Project(form.title, form.description, form.imageUrl, form.category, form.link,
      Some(form.fullDescription), Some(form.additionalImages))
  }

  /** The form that would submit a given project; defined for projects with both optional fields present. */
  function FromProject(p: PortfolioConfig.Project): (form: Option<ProjectForm>)
    ensures form.Some? <==> p.fullDescription.Some? && p.additionalImages.Some?
  {
    if p.fullDescription.Some? && p.additionalImages.Some? then
      Some(ProjectForm(p.title, p.description, p.imageUrl, p.category, p.link,
        p.fullDescription.value, p.additionalImages.value))
    else None
  }

  /** No detail of the form is lost on the way to the page: the submitted project determines the form. */
  lemma ToProjectLossless(form: ProjectForm)
    ensures FromProject(ToProject(form)) == Some(form)
  {
  }

  /** What the dialog tells the page. */
  datatype Event = Saved(project: PortfolioConfig.Project) | Closed

  class Modal {
    var formData: ProjectForm

    constructor ()
      ensures formData == InitialForm
    {
      formData := InitialForm;
    }

    /** One input's change handler (the cover uploader for the image, a text input otherwise). */
    method SetField(f: FormField, text: string)
      modifies this
      ensures formData == WithField(old(formData), f, text)
    {
      formData := WithField(formData, f, text);
    }

    /** "Add Image": a new empty slot at the end of the gallery. */
    method AddAdditionalImage()
      modifies this
      ensures formData == old(formData).(additionalImages := old(formData.additionalImages) + [""])
    {
      formData := formData.(additionalImages := formData.additionalImages + [""]);
    }

    /** A slot's remove button: that position leaves the gallery, the others keep their order. */
    method RemoveAdditionalImage(index: int)
      modifies this
      ensures formData == old(formData).(additionalImages := RemoveAt(old(formData.additionalImages), index))
    {
      formData := formData.(additionalImages := RemoveAt(formData.additionalImages, index));
    }

    /** A slot's uploader: that position takes the new URL. */
    method UpdateAdditionalImage(index: int, url: string)
      modifies this
      ensures formData == old(formData).(additionalImages := ReplaceAt(old(formData.additionalImages), index, url))
    {
      formData := formData.(additionalImages := ReplaceAt(formData.additionalImages, index, url));
    }

    /** Submitting: the page receives the form as a project, then the dialog closes; a form with an empty required input or a link without a scheme is not submitted. */
    method HandleSubmit() returns (events: seq<Event>)
      ensures Submittable(formData) ==> events == [Saved(ToProject(formData)), Closed]
      ensures !Submittable(formData) ==> events == []
    {
      if Submittable(formData) {
        events := [Saved(ToProject(formData)), Closed];
      } else {
        events := [];
      }
    }

    /** The close button and "Cancel": the page hears only that the dialog closed. */
    method Cancel() returns (events: seq<Event>)
      ensures events == [Closed]
    {
      events := [Closed];
    }
  }

  /** A dialog submitted as it opens sends nothing: its title is empty. */
  method SubmitUntouched() returns (events: seq<Event>)
    ensures events == []
  {
    var m := new Modal();
    events := m.HandleSubmit();
  }

  /**
   * Filling the four required inputs and adding one gallery image that is
   * then removed again submits a project with the stock cover, an empty long
   * description and an empty gallery.
   */
  method FillAndSubmit(title: string, description: string, category: string, link: string) returns (events: seq<Event>)
    requires title != "" && description != "" && category != "" && HasScheme(link)
    ensures events == [Saved(PortfolioConfig.Project(title, description, DefaultImage, category, link, Some(""), Some([]))), Closed]
  {
    var m := new Modal();
    m.SetField(TitleField, title);
    m.SetField(DescriptionField, description);
    m.SetField(CategoryField, category);
    m.SetField(LinkField, link);
    m.AddAdditionalImage();
    m.UpdateAdditionalImage(0, "https://example.com/a.png");
    m.RemoveAdditionalImage(0);
    events := m.HandleSubmit();
  }

  /** A link typed without its scheme keeps the browser from submitting, however complete the rest is. */
  method SubmitWithoutScheme(title: string, description: string, category: string) returns (events: seq<Event>)
    requires title != "" && description != "" && category != ""
    ensures events == []
  {
    var m := new Modal();
    m.SetField(TitleField, title);
    m.SetField(DescriptionField, description);
    m.SetField(CategoryField, category);
    var link := "example.com";
    m.SetField(LinkField, link);
    assert ':' !in link;
    NoColonNoScheme(link);
    events := m.HandleSubmit();
  }

  /** The gallery operations by position: removing the slot just added at the end undoes the add. */
  lemma AddThenRemove(images: seq<string>)
    ensures RemoveAt(images + [""], |images|) == images
  {
    RemoveInserted(images, |images|, "");
    assert images[..|images|] + [""] + images[|images|..] == images + [""];
  }

  /** Overwriting a slot and removing it leaves the same gallery as removing it straight away. */
  lemma UpdateThenRemove(images: seq<string>, index: int, url: string)
    ensures RemoveAt(ReplaceAt(images, index, url), index) == RemoveAt(images, index)
  {
    var a := RemoveAt(ReplaceAt(images, index, url), index);
    var b := RemoveAt(images, index);
    assert |a| == |b|;
    forall m | 0 <= m < |a| ensures a[m] == b[m] {
      if 0 <= index < |images| && m >= index {
        assert ReplaceAt(images, index, url)[m + 1] == images[m + 1];
      }
    }
  }
}
