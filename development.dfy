/**
 * The development portfolio page (src/components/templates/DevelopmentTemplate.tsx):
 * a tech stack and a project list kept in the page's own state, edited by
 * index or by project id, with the project editor's draft and input fields.
 */
module Development {
  import opened Options
  import opened Json
  import opened Seqs

  datatype Tech = Tech(name: string, icon: string)

  datatype DevProject = DevProject(
    id: string,
    title: string,
    description: string,
    projectType: string,
    image: string,
    link: Option<string>,
    technologies: seq<string>)

  /** The image a new project starts with. */
  const PlaceholderImage: string := "https://images.unsplash.com/photo-1460925895917-afdab827c52f?auto=format&fit=crop&q=80"

  function Devicon(path: string): string {
    "https://cdn.jsdelivr.net/gh/devicons/devicon/icons/" + path
  }

  /** The tech stack the page starts with. */
  const InitialTechStack: seq<Tech> := [
    Tech("React", Devicon("react/react-original.svg")),
    Tech("Node.js", Devicon("nodejs/nodejs-original.svg")),
    Tech("TypeScript", Devicon("typescript/typescript-original.svg")),
    Tech("Flutter", Devicon("flutter/flutter-original.svg")),
    Tech("Firebase", Devicon("firebase/firebase-plain.svg")),
    Tech("MongoDB", Devicon("mongodb/mongodb-original.svg"))]

  /** The projects the page starts with. */
  const InitialProjects: seq<DevProject> := [
    DevProject("1", "Glide", "Navigate the world of web technology", "iOS App",
               "https://images.unsplash.com/photo-1555774698-0b77e0d5fac6?auto=format&fit=crop&q=80",
               Some("https://example.com/glide"), ["Swift", "Firebase"]),
    DevProject("2", "Vaultflow", "Modern analytics for the modern world", "Web App",
               PlaceholderImage, Some("https://example.com/vaultflow"), ["React", "Node.js", "MongoDB"])]

  /** The project "Add Project" appends; its id is the clock reading in milliseconds, in decimal. */
  function NewProject(now: nat): (p: DevProject)
    ensures p.id == Decimal(now) && p.title == "New Project" && p.projectType == "Web App"
    ensures p.link == None && p.technologies == []
  {
    DevProject(Decimal(now), "New Project", "Project description", "Web App", PlaceholderImage, None, [])
  }

  // ----- `String.prototype.trim` -----

  /**
   * The characters `trim` removes: the ECMAScript white-space characters (tab, line
   * and form feed controls, the byte order mark and the space separators of
   * Unicode 15) and the four line terminators.
   */
  const Whitespace: set<char> := {
    '\t', '\n', '\U{000B}', '\U{000C}', '\r', ' ', '\U{00A0}', '\U{1680}',
    '\U{2000}', '\U{2001}', '\U{2002}', '\U{2003}', '\U{2004}', '\U{2005}', '\U{2006}', '\U{2007}',
    '\U{2008}', '\U{2009}', '\U{200A}', '\U{2028}', '\U{2029}', '\U{202F}', '\U{205F}', '\U{3000}', '\U{FEFF}'}

  predicate IsSpace(c: char) {
    c in Whitespace
  }

  function TrimStart(s: string): string
    decreases |s|
  {
    if s != [] && IsSpace(s[0]) then TrimStart(s[1..]) else s
  }

  function TrimEnd(s: string): string
    decreases |s|
  {
    if s != [] && IsSpace(s[|s| - 1]) then TrimEnd(s[..|s| - 1]) else s
  }

  function Trim(s: string): string {
    TrimEnd(TrimStart(s))
  }

  /** `TrimStart` drops a white-space prefix `s[..i]` and stops at the first other character. */
  lemma {:induction false} TrimStartAt(s: string) returns (i: nat)
    ensures i <= |s| && TrimStart(s) == s[i..]
    ensures forall m :: 0 <= m < i ==> IsSpace(s[m])
    ensures i < |s| ==> !IsSpace(s[i])
    decreases |s|
  {
    if s != [] && IsSpace(s[0]) {
      var k := TrimStartAt(s[1..]);
      i := k + 1;
      assert s[1..][k..] == s[i..];
      forall m | 0 <= m < i ensures IsSpace(s[m]) {
        if m > 0 { assert s[m] == s[1..][m - 1]; }
      }
      if i < |s| { assert s[i] == s[1..][k]; }
    } else {
      i := 0;
      assert s[0..] == s;
    }
  }

  /** `TrimEnd` drops a white-space suffix `s[j..]` and stops at the last other character. */
  lemma {:induction false} TrimEndAt(s: string) returns (j: nat)
    ensures j <= |s| && TrimEnd(s) == s[..j]
    ensures forall m :: j <= m < |s| ==> IsSpace(s[m])
    ensures j > 0 ==> !IsSpace(s[j - 1])
    decreases |s|
  {
    if s != [] && IsSpace(s[|s| - 1]) {
      var init := s[..|s| - 1];
      j := TrimEndAt(init);
      assert init[..j] == s[..j];
      forall m | j <= m < |s| ensures IsSpace(s[m]) {
        if m < |init| { assert s[m] == init[m]; }
      }
      if j > 0 { assert s[j - 1] == init[j - 1]; }
    } else {
      j := |s|;
      assert s[..|s|] == s;
    }
  }

  /** `s[i..j]` is `s` without a white-space prefix and suffix. */
  predicate TrimmedAt(s: string, i: int, j: int) {
    0 <= i <= j <= |s| && Trim(s) == s[i..j] &&
    (forall m :: 0 <= m < i ==> IsSpace(s[m])) && (forall m :: j <= m < |s| ==> IsSpace(s[m]))
  }

  /** White space after `j` in `s[i..]` is white space after `i + j` in `s`. */
  lemma SpaceTail(s: string, i: nat, j: nat)
    requires i <= |s| && j <= |s| - i && forall m :: j <= m < |s[i..]| ==> IsSpace(s[i..][m])
    ensures forall m :: i + j <= m < |s| ==> IsSpace(s[m])
  {
    forall m | i + j <= m < |s| ensures IsSpace(s[m]) {
      assert s[m] == s[i..][m - i];
    }
  }

  /** The bounds of the trimmed slice, whose first and last characters are not white space. */
  lemma TrimBounds(s: string) returns (i: nat, j: nat)
    ensures TrimmedAt(s, i, j)
    ensures i < j ==> !IsSpace(s[i]) && !IsSpace(s[j - 1])
  {
    i := TrimStartAt(s);
    var t := s[i..];
    var k := TrimEndAt(t);
    SpaceTail(s, i, k);
    j := i + k;
    assert t[..k] == s[i..j];
    if i < j {
      assert s[i] == t[0];
      assert s[j - 1] == t[k - 1];
    }
  }

  /**
   * `trim()` returns the slice of the text between its leading and trailing white
   * space, and a non-empty result starts and ends with a character that is not
   * white space.
   */
  lemma TrimSpec(s: string)
    ensures exists i, j :: TrimmedAt(s, i, j)
    ensures Trim(s) != [] ==> !IsSpace(Trim(s)[0]) && !IsSpace(Trim(s)[|Trim(s)| - 1])
  {
    var i, j := TrimBounds(s);
    if Trim(s) != [] {
      assert Trim(s)[0] == s[i];
      assert Trim(s)[|Trim(s)| - 1] == s[j - 1];
    }
  }

  /** The trimmed text is empty exactly when the text is all white space. */
  lemma TrimBlank(s: string)
    ensures Trim(s) == [] <==> forall m :: 0 <= m < |s| ==> IsSpace(s[m])
  {
    var i, j := TrimBounds(s);
    if Trim(s) != [] {
      assert s[i] == Trim(s)[0];
    } else {
      assert i == j;
    }
  }

  // ----- The list edits the handlers make -----

  predicate HasId(id: string, p: DevProject) {
    p.id == id
  }

  /** `projects.filter(project => project.id !== id)`. */
  function WithoutId(projects: seq<DevProject>, id: string): seq<DevProject> {
    Filter(projects, (p: DevProject) => !HasId(id, p))
  }

  /** Removing an id leaves no project with it, and every other project, in order and as often as before. */
  lemma WithoutIdSpec(projects: seq<DevProject>, id: string)
    ensures forall p :: p in WithoutId(projects, id) ==> p.id != id
    ensures Subsequence(WithoutId(projects, id), projects)
    ensures forall p: DevProject :: p.id != id ==> multiset(WithoutId(projects, id))[p] == multiset(projects)[p]
  {
    FilterSpec(projects, (p: DevProject) => !HasId(id, p));
  }

  /** `projects.map(p => p.id === updated.id ? updated : p)`. */
  function Updated(projects: seq<DevProject>, updated: DevProject): seq<DevProject> {
    ReplaceWhere(projects, (p: DevProject) => HasId(updated.id, p), updated)
  }

  /** The update keeps the length, puts `updated` wherever its id was, and keeps every other project. */
  lemma UpdatedSpec(projects: seq<DevProject>, updated: DevProject)
    ensures |Updated(projects, updated)| == |projects|
    ensures forall m :: 0 <= m < |projects| && projects[m].id == updated.id ==> Updated(projects, updated)[m] == updated
    ensures forall m :: 0 <= m < |projects| && projects[m].id != updated.id ==> Updated(projects, updated)[m] == projects[m]
    ensures (exists p :: p in projects && p.id == updated.id) ==> updated in Updated(projects, updated)
  {
    if exists p :: p in projects && p.id == updated.id {
      var p :| p in projects && p.id == updated.id;
      var m :| 0 <= m < |projects| && projects[m] == p;
      assert Updated(projects, updated)[m] == updated;
    }
  }

  /** An id nobody has leaves the list as it is, for both the update and the removal. */
  lemma UnknownIdChangesNothing(projects: seq<DevProject>, updated: DevProject)
    requires forall p :: p in projects ==> p.id != updated.id
    ensures Updated(projects, updated) == projects
    ensures WithoutId(projects, updated.id) == projects
  {
    FilterAll(projects, (p: DevProject) => !HasId(updated.id, p));
  }

  /** `{...project, technologies: [...project.technologies, tech]}`. */
  function WithTech(p: DevProject, tech: string): DevProject {
    p.(technologies := p.technologies + [tech])
  }

  /** `{...project, technologies: project.technologies.filter((_, i) => i !== index)}`. */
  function WithoutTech(p: DevProject, index: int): DevProject {
    p.(technologies := RemoveAt(p.technologies, index))
  }

  /** The fields of the project editor. */
  datatype EditorField = ImageField | TitleField | TypeField | DescriptionField | LinkField

  /** What the editor input for `f` shows: the field's text, and for the link whether there is one. */
  function Read(p: DevProject, f: EditorField): Option<string> {
    match f
    case ImageField => Some(p.image)
    case TitleField => Some(p.title)
    case TypeField => Some(p.projectType)
    case DescriptionField => Some(p.description)
    case LinkField => p.link
  }

  /** `{...project, [field]: text}`: the input's own field takes the text, nothing else changes. */
  function WithField(p: DevProject, f: EditorField, text: string): (q: DevProject)
    ensures Read(q, f) == Some(text)
    ensures forall g :: g != f ==> Read(q, g) == Read(p, g)
    ensures q.id == p.id && q.technologies == p.technologies
  {
    match f
    case ImageField => p.(image := text)
    case TitleField => p.(title := text)
    case TypeField => p.(projectType := text)
    case DescriptionField => p.(description := text)
    case LinkField => p.(link := Some(text))
  }

  class Page {
    var techStack: seq<Tech>
    var projects: seq<DevProject>
    var showAddTech: bool
    var newTech: Tech
    /** The project the editor shows; None while it is closed. */
    var editingProject: Option<DevProject>
    var newTechnology: string

    constructor ()
      ensures techStack == InitialTechStack && projects == InitialProjects
      ensures !showAddTech && newTech == Tech("", "") && editingProject == None && newTechnology == ""
    {
      techStack := InitialTechStack;
      projects := InitialProjects;
      showAddTech := false;
      newTech := Tech("", "");
      editingProject := None;
      newTechnology := "";
    }

    /** "Add Technology" opens the dialog. */
    method OpenAddTech()
      modifies this
      ensures showAddTech && techStack == old(techStack) && projects == old(projects) && newTech == old(newTech)
      ensures editingProject == old(editingProject) && newTechnology == old(newTechnology)
    {
      showAddTech := true;
    }

    /** The dialog's close button hides it and keeps what was typed. */
    method CloseAddTech()
      modifies this
      ensures !showAddTech && techStack == old(techStack) && projects == old(projects) && newTech == old(newTech)
      ensures editingProject == old(editingProject) && newTechnology == old(newTechnology)
    {
      showAddTech := false;
    }

    /** The dialog's name and icon inputs: each changes only its own half of `newTech`. */
    method TypeTechName(text: string)
      modifies this
      ensures newTech == old(newTech).(name := text)
      ensures techStack == old(techStack) && projects == old(projects) && showAddTech == old(showAddTech)
      ensures editingProject == old(editingProject) && newTechnology == old(newTechnology)
    {
      newTech := newTech.(name := text);
    }

    method TypeTechIcon(text: string)
      modifies this
      ensures newTech == old(newTech).(icon := text)
      ensures techStack == old(techStack) && projects == old(projects) && showAddTech == old(showAddTech)
      ensures editingProject == old(editingProject) && newTechnology == old(newTechnology)
    {
      newTech := newTech.(icon := text);
    }

    /** `handleAddTech`: a technology with a name and an icon is appended, the inputs cleared, the dialog closed. */
    method HandleAddTech()
      modifies this
      ensures old(newTech.name != "" && newTech.icon != "") ==>
        techStack == old(techStack) + [old(newTech)] && newTech == Tech("", "") && !showAddTech
      ensures !old(newTech.name != "" && newTech.icon != "") ==>
        techStack == old(techStack) && newTech == old(newTech) && showAddTech == old(showAddTech)
      ensures projects == old(projects) && editingProject == old(editingProject) && newTechnology == old(newTechnology)
    {
      if newTech.name != "" && newTech.icon != "" {
        techStack := techStack + [newTech];
        newTech := Tech("", "");
        showAddTech := false;
      }
    }

    /** `handleRemoveTech(index)`. */
    method HandleRemoveTech(index: int)
      modifies this
      ensures techStack == RemoveAt(old(techStack), index)
      ensures projects == old(projects) && showAddTech == old(showAddTech) && newTech == old(newTech)
      ensures editingProject == old(editingProject) && newTechnology == old(newTechnology)
    {
      techStack := RemoveAt(techStack, index);
    }

    /** `handleAddProject`, with `Date.now()` read as `now`. */
    method HandleAddProject(now: nat)
      modifies this
      ensures projects == old(projects) + [NewProject(now)]
      ensures techStack == old(techStack) && showAddTech == old(showAddTech) && newTech == old(newTech)
      ensures editingProject == old(editingProject) && newTechnology == old(newTechnology)
    {
      projects := projects + [NewProject(now)];
    }

    /** `handleRemoveProject(id)`. */
    method HandleRemoveProject(id: string)
      modifies this
      ensures projects == WithoutId(old(projects), id)
      ensures techStack == old(techStack) && showAddTech == old(showAddTech) && newTech == old(newTech)
      ensures editingProject == old(editingProject) && newTechnology == old(newTechnology)
    {
      projects := WithoutId(projects, id);
    }

    /** The pencil button opens the editor on a project. */
    method HandleEditProject(p: DevProject)
      modifies this
      ensures editingProject == Some(p)
      ensures techStack == old(techStack) && projects == old(projects) && showAddTech == old(showAddTech)
      ensures newTech == old(newTech) && newTechnology == old(newTechnology)
    {
      editingProject := Some(p);
    }

    /** The editor's close and cancel buttons. */
    method CloseEditor()
      modifies this
      ensures editingProject == None
      ensures techStack == old(techStack) && projects == old(projects) && showAddTech == old(showAddTech)
      ensures newTech == old(newTech) && newTechnology == old(newTechnology)
    {
      editingProject := None;
    }

    /** `handleUpdateProject(updated)`: the project with its id is replaced, and the editor closes. */
    method HandleUpdateProject(updated: DevProject)
      modifies this
      ensures projects == Updated(old(projects), updated) && editingProject == None
      ensures techStack == old(techStack) && showAddTech == old(showAddTech) && newTech == old(newTech)
      ensures newTechnology == old(newTechnology)
    {
      projects := Updated(projects, updated);
      editingProject := None;
    }

    /** The technology input of the editor. */
    method TypeTechnology(text: string)
      modifies this
      ensures newTechnology == text
      ensures techStack == old(techStack) && projects == old(projects) && showAddTech == old(showAddTech)
      ensures newTech == old(newTech) && editingProject == old(editingProject)
    {
      newTechnology := text;
    }

    /** `handleAddTechnologyToProject(p)`: a non-blank input, trimmed, joins the project's technologies. */
    method HandleAddTechnologyToProject(p: DevProject)
      modifies this
      ensures Trim(old(newTechnology)) != "" ==>
        projects == Updated(old(projects), WithTech(p, Trim(old(newTechnology)))) &&
        editingProject == None && newTechnology == ""
      ensures Trim(old(newTechnology)) == "" ==>
        projects == old(projects) && editingProject == old(editingProject) && newTechnology == old(newTechnology)
      ensures techStack == old(techStack) && showAddTech == old(showAddTech) && newTech == old(newTech)
    {
      var tech := Trim(newTechnology);
      if tech != "" {
        HandleUpdateProject(WithTech(p, tech));
        newTechnology := "";
      }
    }

    /** A key pressed in the editor's technology input: Enter adds the input to the project the editor shows, any other key does nothing. */
    method TechnologyKeyPress(key: string)
      requires editingProject.Some?
      modifies this
      ensures key == "Enter" && Trim(old(newTechnology)) != "" ==>
        projects == Updated(old(projects), WithTech(old(editingProject.value), Trim(old(newTechnology)))) &&
        editingProject == None && newTechnology == ""
      ensures key != "Enter" || Trim(old(newTechnology)) == "" ==>
        projects == old(projects) && editingProject == old(editingProject) && newTechnology == old(newTechnology)
      ensures techStack == old(techStack) && showAddTech == old(showAddTech) && newTech == old(newTech)
    {
      if key == "Enter" {
        HandleAddTechnologyToProject(editingProject.value);
      }
    }

    /** `handleRemoveTechnologyFromProject(p, techIndex)`. */
    method HandleRemoveTechnologyFromProject(p: DevProject, techIndex: int)
      modifies this
      ensures projects == Updated(old(projects), WithoutTech(p, techIndex)) && editingProject == None
      ensures techStack == old(techStack) && showAddTech == old(showAddTech) && newTech == old(newTech)
      ensures newTechnology == old(newTechnology)
    {
      HandleUpdateProject(WithoutTech(p, techIndex));
    }

    /**
     * An editor field's `onChange` as written: it hands the changed draft to
     * `handleUpdateProject`, which saves it and closes the editor.
     */
    method EditFieldAsWritten(f: EditorField, text: string)
      requires editingProject.Some?
      modifies this
      ensures projects == Updated(old(projects), WithField(old(editingProject.value), f, text))
      ensures editingProject == None
      ensures techStack == old(techStack) && showAddTech == old(showAddTech) && newTech == old(newTech)
      ensures newTechnology == old(newTechnology)
    {
      HandleUpdateProject(WithField(editingProject.value, f, text));
    }

    /** An editor field's `onChange` as intended: the draft changes and the editor stays open until saved. */
    method EditField(f: EditorField, text: string)
      requires editingProject.Some?
      modifies this
      ensures editingProject == Some(WithField(old(editingProject.value), f, text))
      ensures techStack == old(techStack) && projects == old(projects) && showAddTech == old(showAddTech)
      ensures newTech == old(newTech) && newTechnology == old(newTechnology)
    {
      editingProject := Some(WithField(editingProject.value, f, text));
    }

    /** "Save Changes": the draft replaces the project with its id. */
    method SaveEditor()
      requires editingProject.Some?
      modifies this
      ensures projects == Updated(old(projects), old(editingProject.value)) && editingProject == None
      ensures techStack == old(techStack) && showAddTech == old(showAddTech) && newTech == old(newTech)
      ensures newTechnology == old(newTechnology)
    {
      HandleUpdateProject(editingProject.value);
    }
  }

  // ----- Finding: the project editor closes on the first keystroke -----

  /**
   * Typing "a" then "b" into the title of the first project as written: the first
   * keystroke already closes the editor, so the second one has no field to go to.
   */
  method TypeTitleAsWritten() returns (openAfterFirstKey: bool, savedTitle: string)
    ensures !openAfterFirstKey && savedTitle == "a"
  {
    var page := new Page();
    page.HandleEditProject(page.projects[0]);
    page.EditFieldAsWritten(TitleField, "a");
    openAfterFirstKey := page.editingProject.Some?;
    savedTitle := page.projects[0].title;
  }

  /** With the corrected editor, both keystrokes reach the draft and "Save Changes" stores "ab". */
  method TypeTitle() returns (openAfterFirstKey: bool, savedTitle: string)
    ensures openAfterFirstKey && savedTitle == "ab"
  {
    var page := new Page();
    page.HandleEditProject(page.projects[0]);
    page.EditField(TitleField, "a");
    openAfterFirstKey := page.editingProject.Some?;
    page.EditField(TitleField, "ab");
    page.SaveEditor();
    savedTitle := page.projects[0].title;
  }

  /** Every edit of the corrected editor followed by a save changes only the edited project, once. */
  lemma DraftSaved(projects: seq<DevProject>, draft: DevProject, f: EditorField, text: string)
    requires draft in projects && forall i, j :: 0 <= i < j < |projects| ==> projects[i].id != projects[j].id
    ensures |Updated(projects, WithField(draft, f, text))| == |projects|
    ensures WithField(draft, f, text) in Updated(projects, WithField(draft, f, text))
    ensures forall p :: p in projects && p.id != draft.id ==> p in Updated(projects, WithField(draft, f, text))
  {
    var q := WithField(draft, f, text);
    UpdatedSpec(projects, q);
    forall p | p in projects && p.id != draft.id ensures p in Updated(projects, q) {
      var m :| 0 <= m < |projects| && projects[m] == p;
      assert Updated(projects, q)[m] == p;
    }
  }
}
