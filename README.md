# Skillfolio portfolio configuration, modelled in Dafny

This project models the editable parts of the Skillfolio portfolio builder.

**The configuration store.** The `usePortfolioConfig` hook keeps the portfolio document as React state. It loads the document from local storage once and merges it over `defaultConfig`. It offers three updates:

- a shallow update (`updateConfig`);
- a deep update along a key path (`updateField`);
- a reset.

Every change is saved back to storage.

**The document.** `PortfolioConfig` and its seed, `defaultConfig`, are in `src/config/portfolioConfig.ts`.

**The components.** Each component that edits the document has its own module:

- the two templates (development and graphic design);
- the "Add Project" and "Add Testimonial" dialogs;
- the generic section editor `EditModal`;
- the sign-in dialog;
- the in-place text and image editors.

## How the model is built

- **Live objects.** `JsHeap` models JavaScript objects and arrays as cells in a heap (`Heap = map<Ref, Cell>`). A ghost rank on each cell shows that the data is acyclic. `Snap` reads a live value as the JSON document that `JSON.stringify` would write:
  - undefined object properties are dropped;
  - undefined array elements become `null`.
- **Documents.** `Json` is the document datatype. `Get` and `Set` are the document-level read and write along a key path. A path step is an object key (`Name`) or an array index (`Index`). An assignment past the end of an array extends it with holes, as JavaScript does.
- **Allocation.** `JsMemory.Memory` is the class that owns the heap and allocates in it. `PathWalk` holds the cursor walk the in-place writers perform (`Walk`). It also holds a copy-on-write writer (`CopyWrite`) that the corrected behaviour uses.
- **The store.** `ConfigStore.Store` keeps two things:
  - the current configuration, as a reference into the heap, so sharing with `defaultConfig` is visible;
  - `storage`, a map from storage key to what `JSON.parse` would see there: a document, the empty text, or unparsable text.
- **Components.** Component state is a class with the component's state fields as fields. Each event handler is a method that states the component's whole new state.
- **Where the code misbehaves.** Each such place has two members:
  - a `…AsWritten` member, which follows the code;
  - a corrected member, whose evidently intended property is proved.

  Where a component calls the code that misbehaves, the component's own member calls the as-written member, because that is what the page does. The graphic design template's handlers go through `UpdateField`. Their contracts state the new document when nothing but the path leads to the object written into (`Alone`), and so on every tree-shaped configuration. They also state that the old configuration, on a fresh page `defaultConfig`, reads as the new one.
- **Tree shape.** `JsHeap.Tree` says that no container below a value is reached along two routes. `JSON.parse` and an object literal such as `defaultConfig` build trees. So the store's `Shaped` and `DefaultsShaped`, and the dialog's `Shaped`, hold for a freshly built page: `AllocDocument`, `OpenPage`, `Load` and `EditModal.Open` establish them. `ShapedAlone` turns tree shape into `Alone`, so a writer's `Set` equation holds without an extra hypothesis. The writers that store a string, a fresh list or a merged object keep the shape.
- **Trimming.** `String.prototype.trim` uses the full ECMAScript white-space set: the Unicode space separators, the byte order mark, tab, the line and form feeds, and the four line terminators.
- **Deep-update errors.** `updateField` and the EditModal writers keep no preconditions on their paths. A walk that reads through a non-container returns `thrown`. For `updateField` the page then sees no change, because the throw happens in the event handler before `setConfig` runs. The EditModal writers also return `thrown` and keep the dialog's state; "## Left out" says how the source differs. An empty path writes the key `"undefined"`, because `path[path.length - 1]` is `undefined`.

## Model

| member | source | states |
|---|---|---|
| PortfolioConfig.ToJson | src/config/portfolioConfig.ts:2-37 | the stored form of a portfolio is an object with exactly the five sections hero, projects, testimonials, clients and contact; its project and testimonial lists are as long as the portfolio's |
| PortfolioConfig.RoundTrip | src/config/portfolioConfig.ts:2-37 | reading the stored form back gives the same typed portfolio |
| PortfolioConfig.ProjectRoundTrip | src/config/portfolioConfig.ts:9-17 | a project reads back unchanged, including whether each of its two optional fields is present |
| PortfolioConfig.TestimonialRoundTrip | src/config/portfolioConfig.ts:18-25 | a testimonial reads back unchanged |
| PortfolioConfig.ContactRoundTrip | src/config/portfolioConfig.ts:30-36 | the contact section and its socials list read back unchanged |
| PortfolioConfig.ListRoundTrip | src/config/portfolioConfig.ts:9-25 | a list reads back element by element whenever each element does |
| PortfolioConfig.DefaultConfig | src/config/portfolioConfig.ts:39-88 | the seed fills every hero and contact field. It has one project, which supplies both optional fields and three gallery images. It has one testimonial, rated 5, six clients with distinct names, and three socials |
| PortfolioConfig.DefaultHeroName | src/config/portfolioConfig.ts:41 | the seed's stored form holds "Asad Synt" at hero.name |
| ConfigStore.DefaultHeroEditable | src/config/portfolioConfig.ts:40-45 | the seed's stored form is an object whose hero name can be set to any value |
| ConfigStore.Store.constructor | src/hooks/usePortfolioConfig.ts:5 | the state starts out as the default object itself |
| ConfigStore.MergeDoc | src/hooks/usePortfolioConfig.ts:14-21 | in the merged document every key the saved value has wins; the four fallback keys take the saved value only when it is truthy, so a saved empty list is kept |
| ConfigStore.MergeIdempotent | src/hooks/usePortfolioConfig.ts:14-21 | merging a merged document over the same defaults again gives it back |
| ConfigStore.MergeSnap | src/hooks/usePortfolioConfig.ts:14-21 | merging live objects and then serialising gives the document-level merge of the serialised parts |
| ConfigStore.SpreadSnap | src/hooks/usePortfolioConfig.ts:16 | spreading a parsed value copies the same keys and values as spreading its document: an object's fields, an array's or a string's index numerals |
| Json.SpreadOfNonObjectHasDigitKeys | src/hooks/usePortfolioConfig.ts:16 | spreading a saved array or string yields only digit keys, so it never overrides a section |
| ConfigStore.Store.Load | src/hooks/usePortfolioConfig.ts:8-28 | with nothing saved (no entry or the empty text) the state is kept; unparsable text or `null` gives the defaults; otherwise the state is a new object whose fields are MergeDoc of the defaults and the saved document; default fields the saved value lacks are carried over as the same objects; the defaults are unchanged; tree-shaped defaults stay tree-shaped, and the state is tree-shaped afterwards when it was before or a document was read |
| ConfigStore.Store.LoadSaved | src/hooks/usePortfolioConfig.ts:12-22 | a new object whose fields are MergeDoc of the defaults and the parsed document; default fields the saved value lacks are the same objects; tree-shaped defaults give a tree-shaped state |
| ConfigStore.Store.UpdateConfig | src/hooks/usePortfolioConfig.ts:30-34 | a new object: every key of the argument takes its value, undefined ones read as absent, every other key reads as before; storage holds the new document; the defaults are unchanged |
| ConfigStore.Store.UpdateField | src/hooks/usePortfolioConfig.ts:36-49 | the update throws exactly when `Set` of the document fails, and then nothing visible changes; otherwise the heap is exactly `Assigned`, the path holds the value and storage holds the new document; for a path of one key the old configuration is untouched, for a longer path the old configuration reads as the new one; when no other path leads to the written container, or the configuration is tree-shaped, the new document is `Set` of the old one; writing a value that holds no reference keeps the configuration and the defaults tree-shaped |
| ConfigStore.UpdateInPlace | src/hooks/usePortfolioConfig.ts:37-45 | the copy-and-assign step, read as documents: it throws exactly when `Set` fails; otherwise the copy holds the value at the path, and the shallow- and deep-path facts about the old configuration hold, the `Set` equation also when the old configuration is a tree; writing a value that holds no reference leaves the copy a tree and keeps any other tree a tree |
| ConfigStore.Store.ShapedAlone | src/hooks/usePortfolioConfig.ts:40-45 | on a tree-shaped configuration, exactly the paths whose walk succeeds are the only route to the container they assign into |
| ConfigStore.AssignedPtrTree | src/hooks/usePortfolioConfig.ts:37-45 | assigning a tree that shares with the configuration only what the replaced value reaches leaves the copy of a tree-shaped configuration a tree |
| ConfigStore.CopyAndAssign | src/hooks/usePortfolioConfig.ts:37-45 | the update throws exactly when the cursor walk fails; otherwise the new heap is `Assigned` of the old one from a fresh copy |
| ConfigStore.AssignInPlace | src/hooks/usePortfolioConfig.ts:44-45 | `current[lastKey] = value` into the container the walk reached gives exactly `Assigned` |
| ConfigStore.Written | src/hooks/usePortfolioConfig.ts:44 | the path assigned along is never empty and equals the given one when that one is non-empty |
| ConfigStore.CopiedTop | src/hooks/usePortfolioConfig.ts:37-42 | walking from the shallow copy succeeds exactly when walking from the original does; it reaches the same container, or the copy itself for a one-key path |
| ConfigStore.InPlaceOutcome | src/hooks/usePortfolioConfig.ts:40-45 | after the in-place assignment the path from the copy holds the value; the old configuration reads as before (one key) or as the copy (longer); with no aliasing it reads as `Set` of the old document |
| ConfigStore.ShallowOutcome | src/hooks/usePortfolioConfig.ts:44-45 | a one-key write lands only in the copy, which reads as `Set` of the untouched original |
| ConfigStore.DeepOutcome | src/hooks/usePortfolioConfig.ts:40-45 | a longer write lands in a container that the original and the copy share, so both read alike afterwards |
| JsHeap.WalkOkIffSet | src/hooks/usePortfolioConfig.ts:40-45 | the cursor walk and the final assignment succeed exactly when `Set` of the document succeeds |
| PathWalk.Walk | src/hooks/usePortfolioConfig.ts:40-42 | the cursor loop ends at exactly the value the path resolves to, or fails where a read fails |
| Json.SetThenGet | src/hooks/usePortfolioConfig.ts:44-45 | after a successful `Set` the path holds the new value |
| Json.SetLeavesOthers | src/hooks/usePortfolioConfig.ts:44-45 | after a successful `Set` every other existing path that parts ways with it reads as before |
| Json.SetDefined | src/hooks/usePortfolioConfig.ts:40-45 | `Set` succeeds exactly when the path's proper prefix exists and its last step fits the container found there |
| Json.Place | src/hooks/usePortfolioConfig.ts:45 | assigning an array index keeps the others; past the end the array grows to the index, with holes between |
| ConfigStore.Store.Commit | src/hooks/usePortfolioConfig.ts:47-48 | the copy becomes the state and storage holds its document |
| ConfigStore.Store.UpdateFieldCopying | src/hooks/usePortfolioConfig.ts:36-49 | the corrected update throws exactly when `Set` fails; otherwise the new document is `Set` of the old, the path holds the value, storage holds the new document, and no existing object changes: the heap only grows and the defaults stay as they were |
| PathWalk.CopyWrite | src/hooks/usePortfolioConfig.ts:36-49 | copy-on-write along a path: throws exactly when `Set` fails, and otherwise yields a fresh root that reads as `Set` of the old document while no existing cell changes |
| ConfigStore.Store.ResetConfig | src/hooks/usePortfolioConfig.ts:51-54 | the state is the default object again, the saved entry is removed, and the page reads the defaults as they now are; tree-shaped defaults give a tree-shaped state |
| ConfigStore.EditHeroAsWritten | src/hooks/usePortfolioConfig.ts:36-49 | on a tree-shaped page still showing its defaults, `updateField(['hero','name'], 'X')` gives exactly `Set` of the old document with hero.name "X", and makes the defaults read exactly as the edited page |
| ConfigStore.EditThenReset | src/hooks/usePortfolioConfig.ts:36-54 | edit the hero name, then reset, as written: the page shows `Set` of the seed with hero.name "X", and after the reset it still shows exactly that, so it is not the seed unless the seed already said "X" |
| ConfigStore.EditThenResetCopying | src/hooks/usePortfolioConfig.ts:36-54 | the same steps with the copying update: the reset shows the seed again |
| ConfigStore.AllocDocument | src/config/portfolioConfig.ts:39-88 | the object a constant such as `defaultConfig` names is fresh, reads as the document and is a tree |
| ConfigStore.OpenPage | src/hooks/usePortfolioConfig.ts:5 | a fresh page: the state is the default object, reads as the seed, and both are tree-shaped |
| Development.NewProject | src/components/templates/DevelopmentTemplate.tsx:83-90 | a new project's id is the clock reading in decimal; its title is "New Project", its type "Web App", it has no link and no technologies |
| Development.TrimSpec | src/components/templates/DevelopmentTemplate.tsx:119 | `trim()` is the slice between a white-space prefix and a white-space suffix, and a non-empty result starts and ends with a non-space |
| Development.TrimBlank | src/components/templates/DevelopmentTemplate.tsx:119 | the trimmed text is empty exactly when the text is all white space |
| Development.WithoutIdSpec | src/components/templates/DevelopmentTemplate.tsx:95 | removing an id leaves no project with it, keeps the others in order, and keeps each other project as often as before |
| Development.UpdatedSpec | src/components/templates/DevelopmentTemplate.tsx:114 | the id-keyed update keeps the length, puts the new project at every position with its id, and keeps every other position |
| Development.UnknownIdChangesNothing | src/components/templates/DevelopmentTemplate.tsx:94-116 | an id no project has leaves the list unchanged, under both the update and the removal |
| Development.WithField | src/components/templates/DevelopmentTemplate.tsx:419-454 | an editor field edit sets that field (the link becomes present) and leaves every other field, the id and the technologies as they were |
| Development.Page.constructor | src/components/templates/DevelopmentTemplate.tsx:27-68 | the initial tech stack and projects, the add-tech dialog closed with empty inputs, no open editor, an empty technology input |
| Development.Page.OpenAddTech | src/components/templates/DevelopmentTemplate.tsx:200 | the add-tech dialog opens; nothing else changes |
| Development.Page.CloseAddTech | src/components/templates/DevelopmentTemplate.tsx:359 | the add-tech dialog closes and keeps what was typed |
| Development.Page.TypeTechName | src/components/templates/DevelopmentTemplate.tsx:371 | only the name half of the new technology changes |
| Development.Page.TypeTechIcon | src/components/templates/DevelopmentTemplate.tsx:381 | only the icon half of the new technology changes |
| Development.Page.HandleAddTech | src/components/templates/DevelopmentTemplate.tsx:70-76 | with both halves non-empty the technology is appended, the inputs are cleared and the dialog closes; otherwise nothing changes |
| Development.Page.HandleRemoveTech | src/components/templates/DevelopmentTemplate.tsx:78-80 | exactly position `index` leaves the stack and the rest keep their order; an out-of-range index removes nothing |
| Seqs.RemoveAt | src/components/templates/DevelopmentTemplate.tsx:79 | the list without position `index`: one shorter when `index` is in range, with the elements before and after it in place; the same list when it is out of range |
| Seqs.RemoveInserted | src/components/AddProjectModal.tsx:37-49 | removing a position undoes inserting there |
| Development.Page.HandleAddProject | src/components/templates/DevelopmentTemplate.tsx:82-92 | exactly one new project is appended after the unchanged earlier ones |
| Development.Page.HandleRemoveProject | src/components/templates/DevelopmentTemplate.tsx:94-96 | the projects become the id-filtered list; nothing else changes |
| Development.Page.HandleEditProject | src/components/templates/DevelopmentTemplate.tsx:108-111 | the editor opens on the given project |
| Development.Page.CloseEditor | src/components/templates/DevelopmentTemplate.tsx:405 | the editor closes and the projects stay as they were |
| Development.Page.HandleUpdateProject | src/components/templates/DevelopmentTemplate.tsx:113-116 | the project with the updated one's id is replaced and the editor closes |
| Development.Page.TypeTechnology | src/components/templates/DevelopmentTemplate.tsx:481 | only the technology input changes |
| Development.Page.HandleAddTechnologyToProject | src/components/templates/DevelopmentTemplate.tsx:118-127 | a non-blank input, trimmed, is appended to that project's technologies, the input is cleared and the editor closes; a blank input changes nothing |
| Development.Page.TechnologyKeyPress | src/components/templates/DevelopmentTemplate.tsx:484-489 | Enter in the technology input adds it to the project the editor shows, as the Add button does; any other key changes nothing |
| Development.Page.HandleRemoveTechnologyFromProject | src/components/templates/DevelopmentTemplate.tsx:129-135 | that project loses exactly the technology at `techIndex`, the others stay, and the editor closes |
| Development.Page.EditFieldAsWritten | src/components/templates/DevelopmentTemplate.tsx:419-454 | as written, a field edit saves the changed draft into the list and closes the editor |
| Development.Page.EditField | src/components/templates/DevelopmentTemplate.tsx:419-454 | corrected: a field edit changes only the draft, and the editor and the list stay as they were |
| Development.Page.SaveEditor | src/components/templates/DevelopmentTemplate.tsx:511 | "Save Changes" replaces the project with the draft's id by the draft and closes the editor |
| Development.TypeTitleAsWritten | src/components/templates/DevelopmentTemplate.tsx:428 | as written, making the title read "a" and then "ab" fails at the first step: the editor is already closed and "a" is saved |
| Development.TypeTitle | src/components/templates/DevelopmentTemplate.tsx:428 | corrected: the editor stays open and "ab" is saved |
| Development.DraftSaved | src/components/templates/DevelopmentTemplate.tsx:511 | with distinct ids, saving an edited draft keeps the length, contains the draft and keeps every other project |
| GraphicDesign.CategoryList | src/components/templates/GraphicDesignTemplate.tsx:17 | one category per project, in order |
| GraphicDesign.CategoriesSpec | src/components/templates/GraphicDesignTemplate.tsx:17 | "all" comes first, then every category some project has, each exactly once, in first-use order, and nothing else |
| Seqs.DistinctSpec | src/components/templates/GraphicDesignTemplate.tsx:17 | the de-duplicated list has exactly the elements of the original, no repeats, in first-occurrence order |
| GraphicDesign.FilteredSpec | src/components/templates/GraphicDesignTemplate.tsx:18-20 | "all" shows the whole list; any other category shows, in order, exactly the projects of that category, each as often as the list has it |
| Seqs.FilterSpec | src/components/templates/GraphicDesignTemplate.tsx:20 | `filter` keeps a subsequence with exactly the passing elements, each as often as before |
| GraphicDesign.CategoryShowsWork | src/components/templates/GraphicDesignTemplate.tsx:17-20 | for a non-empty project list, every category button shows at least one project |
| GraphicDesign.Page.constructor | src/components/templates/GraphicDesignTemplate.tsx:11-12 | the page starts on "all" with no project selected |
| GraphicDesign.Page.SelectCategory | src/components/templates/GraphicDesignTemplate.tsx:141 | the pressed category becomes the active one |
| GraphicDesign.Page.ProjectClick | src/components/templates/GraphicDesignTemplate.tsx:22-25 | the detail dialog opens on the clicked project |
| GraphicDesign.Page.CloseModal | src/components/templates/GraphicDesignTemplate.tsx:27-30 | the detail dialog closes |
| GraphicDesign.AllocAppended | src/components/templates/GraphicDesignTemplate.tsx:33 | `[...items, item]` is a fresh array reading as the old elements' documents with the item last; its first elements are the old ones and the appended item is a fresh tree |
| GraphicDesign.Page.AppendTo | src/components/templates/GraphicDesignTemplate.tsx:32-38 | through the as-written one-key `updateField`: spreading a section that is not an array or a string throws and changes nothing. Otherwise the new document is `Set` of the old one with the item appended to that section, storage holds it, and the defaults read as before; a tree-shaped configuration and tree-shaped defaults stay tree-shaped |
| GraphicDesign.AppendKeepsTree | src/components/templates/GraphicDesignTemplate.tsx:32-38 | storing the appended array under one key of the copy of a tree-shaped configuration leaves a tree |
| GraphicDesign.Page.HandleAddProject | src/components/templates/GraphicDesignTemplate.tsx:32-34 | the submitted project's document goes to the end of `projects`; tree shape of the configuration and of the defaults is kept |
| GraphicDesign.Page.HandleAddTestimonial | src/components/templates/GraphicDesignTemplate.tsx:36-38 | the submitted testimonial's document goes to the end of `testimonials`; tree shape of the configuration and of the defaults is kept |
| GraphicDesign.Page.EditHero | src/components/templates/GraphicDesignTemplate.tsx:91-124 | through the as-written `updateField`: the edit throws exactly when `Set` at `['hero', field]` fails, and then the state and storage stay. Otherwise storage holds the new document, and the old configuration reads as the new one; on a fresh page that is the default configuration. When nothing else leads to the hero object, in particular on a tree-shaped configuration, the new document is `Set` of the old; tree shape of the configuration and of the defaults is kept |
| GraphicDesign.Page.UploadTestimonialImage | src/components/templates/GraphicDesignTemplate.tsx:198 | through the as-written `updateField`: the upload throws exactly when `Set` at `['testimonials', index, 'image']` fails. Otherwise the old configuration reads as the new one, and when nothing else leads to that testimonial, in particular on a tree-shaped configuration, the new document is `Set` of the old; tree shape is kept |
| GraphicDesign.AddProjectTyped | src/components/templates/GraphicDesignTemplate.tsx:32-34 | on a well-formed portfolio, adding a project gives the portfolio with that project last, and the result reads back as a well-formed portfolio |
| GraphicDesign.AddTestimonialTyped | src/components/templates/GraphicDesignTemplate.tsx:36-38 | the same for a testimonial |
| GraphicDesign.EditHeroTyped | src/components/templates/GraphicDesignTemplate.tsx:91-124 | on a well-formed portfolio, a hero edit changes that one hero text and nothing else |
| GraphicDesign.UploadTestimonialImageTyped | src/components/templates/GraphicDesignTemplate.tsx:198 | in range, only that testimonial's image changes; past the end of the list the write throws |
| AddProjectModal.Modal.constructor | src/components/AddProjectModal.tsx:21-29 | the form starts with empty texts, the stock cover image, category "Design" and no gallery images |
| AddProjectModal.WithField | src/components/AddProjectModal.tsx:80-178 | the input's own field takes the text; every other field and the gallery stay |
| AddProjectModal.WithFieldUndo | src/components/AddProjectModal.tsx:80-178 | typing a field's old text back restores the form |
| AddProjectModal.Modal.SetField | src/components/AddProjectModal.tsx:80-178 | one input's change handler changes only its own field |
| AddProjectModal.Modal.AddAdditionalImage | src/components/AddProjectModal.tsx:37-42 | one empty slot is appended to the gallery; nothing else changes |
| AddProjectModal.Modal.RemoveAdditionalImage | src/components/AddProjectModal.tsx:44-49 | exactly position `index` leaves the gallery, and the rest keep their order |
| AddProjectModal.Modal.UpdateAdditionalImage | src/components/AddProjectModal.tsx:51-56 | the gallery keeps its length and only position `index` changes |
| Seqs.ReplaceAt | src/components/AddProjectModal.tsx:54 | same length; only position `index` takes the new value |
| AddProjectModal.AddThenRemove | src/components/AddProjectModal.tsx:37-49 | removing the slot just added undoes the add |
| AddProjectModal.UpdateThenRemove | src/components/AddProjectModal.tsx:44-56 | overwriting a slot and then removing it equals removing it straight away |
| AddProjectModal.ToProject | src/components/AddProjectModal.tsx:31-35 | the page receives the form itself: every field carries over, and both optional fields are present |
| AddProjectModal.FromProject | src/components/AddProjectModal.tsx:5-13 | a project comes from some form exactly when both of its optional fields are present |
| AddProjectModal.ToProjectLossless | src/components/AddProjectModal.tsx:31-35 | the submitted project determines the form: no detail is lost |
| AddProjectModal.Modal.HandleSubmit | src/components/AddProjectModal.tsx:31-35 | a form whose required inputs are filled and whose link starts with a URL scheme is saved, and then the dialog closes, in that order. Any other form sends nothing |
| AddProjectModal.Modal.Cancel | src/components/AddProjectModal.tsx:189-193 | the page hears only that the dialog closed |
| AddProjectModal.SubmitUntouched | src/components/AddProjectModal.tsx:21-35 | an untouched form cannot be submitted |
| AddProjectModal.FillAndSubmit | src/components/AddProjectModal.tsx:21-56 | filling the required inputs, with a link that has a scheme, then adding and removing a gallery slot, submits a project with the stock cover, an empty long description and an empty gallery |
| AddProjectModal.HasSchemeSpec | src/components/AddProjectModal.tsx:175-182 | a link passes the `type="url"` check exactly when it opens with an ASCII letter, then letters, digits, `+`, `-` or `.`, up to a colon |
| AddProjectModal.SubmitWithoutScheme | src/components/AddProjectModal.tsx:175-182 | a complete form whose link is `example.com` sends nothing |
| AddTestimonialModal.Modal.constructor | src/components/AddTestimonialModal.tsx:20-27 | the form starts with empty texts, the stock portrait and five stars |
| AddTestimonialModal.WithField | src/components/AddTestimonialModal.tsx:57-112 | the input's own field takes the text; every other field and the rating stay |
| AddTestimonialModal.Modal.SetField | src/components/AddTestimonialModal.tsx:57-112 | one input changes only its own field, and the rating stays in 1..5 |
| AddTestimonialModal.Modal.PickRating | src/components/AddTestimonialModal.tsx:124-128 | a star button sets exactly the rating, which stays one of the five stars |
| AddTestimonialModal.FilledStarsCount | src/components/AddTestimonialModal.tsx:124-135 | a picked rating fills exactly that many stars, the first ones of the row |
| Seqs.FilterPrefix | src/components/AddTestimonialModal.tsx:133 | when the test holds exactly on a prefix, the filter keeps that prefix |
| AddTestimonialModal.Modal.HandleSubmit | src/components/AddTestimonialModal.tsx:29-33 | a complete form is saved unchanged and then the dialog closes; the saved rating is in 1..5; an incomplete form sends nothing |
| AddTestimonialModal.Modal.Cancel | src/components/AddTestimonialModal.tsx:146-150 | the page hears only that the dialog closed |
| AddTestimonialModal.QuickTestimonial | src/components/AddTestimonialModal.tsx:20-33 | a testimonial entered without touching the stars is saved with five stars and the stock portrait |
| AddTestimonialModal.RePick | src/components/AddTestimonialModal.tsx:124-135 | only the last pick counts, and it fills that many stars |
| AuthModal.ErrorText | src/components/AuthModal.tsx:31-38 | the two known messages get their fixed texts; any other non-empty message is shown as it is; a missing or empty message gets the generic text; the result is never empty |
| AuthModal.ErrorTextCases | src/components/AuthModal.tsx:31-38 | apart from the known messages, a fixed text is shown exactly when the error has no message |
| AuthModal.Modal.constructor | src/components/AuthModal.tsx:11-16 | sign-in mode, empty inputs, no error, not busy |
| AuthModal.Modal.ToggleMode | src/components/AuthModal.tsx:44-50 | the mode flips and the error and all three inputs are cleared |
| AuthModal.Modal.SetEmail | src/components/AuthModal.tsx:101 | only the email changes |
| AuthModal.Modal.SetPassword | src/components/AuthModal.tsx:115 | only the password changes |
| AuthModal.Modal.SetUsername | src/components/AuthModal.tsx:82 | only the username changes |
| AuthModal.Utf16Length | src/components/AuthModal.tsx:86-87 | the length the length limits count, in UTF-16 code units: between the number of characters and twice it, equal to it for text inside the Basic Multilingual Plane and twice it for text wholly outside |
| AuthModal.Modal.BeginSubmit | src/components/AuthModal.tsx:18-28 | no call while busy, without an email, with a password under six code units, or (only in sign-up mode) with a username outside 3 to 30 code units; otherwise the error is cleared, the dialog becomes busy, and it calls sign-up or sign-in for the current mode with the current inputs |
| AuthModal.Modal.BeginSubmitPatterned | src/components/AuthModal.tsx:88-89 | as `BeginSubmit`, but a sign-up username must also consist of letters, digits, underscores and hyphens, as the input's title says |
| AuthModal.SpacedUsernameAsWritten | src/components/AuthModal.tsx:79-90 | a sign-up with username "a b c" makes the sign-up call |
| AuthModal.SpacedUsername | src/components/AuthModal.tsx:88-89 | with the pattern in effect, the same sign-up makes no call |
| AuthModal.AstralPassword | src/components/AuthModal.tsx:112-120 | a password of three characters outside the Basic Multilingual Plane is six code units long and is accepted |
| AuthModal.Modal.FinishSubmit | src/components/AuthModal.tsx:29-41 | the dialog closes exactly when the call succeeded; a failure shows its mapped text; either way the dialog stops being busy |
| AuthModal.WrongPassword | src/components/AuthModal.tsx:18-41 | a wrong password shows the friendly text, and the same sign-in can be submitted again |
| AuthModal.DoubleSubmit | src/components/AuthModal.tsx:18-28 | a second submit while the first call is pending makes no call |
| AuthModal.SwitchAfterFailure | src/components/AuthModal.tsx:18-50 | switching mode after a failure clears the error, and the next submit needs the inputs typed again |
| EditableText.Field.constructor | src/components/EditableText.tsx:16-17 | not editing, and the shown text is the value |
| EditableText.Field.ValueChanged | src/components/EditableText.tsx:20-22 | a changed value overwrites the shown text, even mid-edit; an unchanged value leaves it |
| EditableText.Field.DoubleClick | src/components/EditableText.tsx:36-38 | editing starts and the text stays |
| EditableText.Field.Type | src/components/EditableText.tsx:59 | only the text changes |
| EditableText.Field.Blur | src/components/EditableText.tsx:40-43 | editing stops and the owner receives the current text |
| EditableText.Field.KeyDown | src/components/EditableText.tsx:45-50 | a commit happens exactly on Enter without Shift, with the text as blur would hand it over; any other key leaves the area open |
| EditableText.EditWithEnter | src/components/EditableText.tsx:36-50 | typing and pressing Enter hands over exactly the typed text |
| EditableText.ShiftEnter | src/components/EditableText.tsx:45-50 | Shift+Enter hands nothing over and stays open |
| EditableText.OwnerChangeMidEdit | src/components/EditableText.tsx:17-43 | an owner that changes its value mid-edit discards the typed text, and the blur hands over the owner's new value |
| EditableText.OwnerIgnoresEdit | src/components/EditableText.tsx:17-43 | an owner that ignores the commit (as the development page's `onChange={() => {}}` does) leaves the typed text shown over its unchanged value |
| EditableImage.Picture.constructor | src/components/EditableImage.tsx:17-19 | not editing, the URL is `src`, no error |
| EditableImage.Picture.SrcChanged | src/components/EditableImage.tsx:18 | a new `src` is shown, but the URL input does not follow it |
| EditableImage.Picture.ImageError | src/components/EditableImage.tsx:32-34 | a failed load sets the error flag |
| EditableImage.Picture.ImageLoad | src/components/EditableImage.tsx:36-38 | a successful load clears it |
| EditableImage.Picture.DoubleClick | src/components/EditableImage.tsx:21-23 | editing starts |
| EditableImage.Picture.Type | src/components/EditableImage.tsx:46 | only the URL changes |
| EditableImage.Picture.Blur | src/components/EditableImage.tsx:25-30 | editing stops; the owner receives the URL exactly when the shown image did not fail |
| EditableImage.ReplaceWorkingImage | src/components/EditableImage.tsx:17-46 | replacing a loaded image hands over the typed URL |
| EditableImage.BrokenImageStuck | src/components/EditableImage.tsx:25-38 | while `src` keeps failing to load, no attempt at a new URL ever reaches the owner |
| EditableImage.Picture.TypeClearingError | src/components/EditableImage.tsx:19-46 | the corrected input: the URL takes the text and the error flag of the old image is cleared |
| EditableImage.ReplaceBrokenImage | src/components/EditableImage.tsx:17-46 | with the corrected input, a URL typed over a broken image reaches the owner |
| EditModal.Modal.constructor | src/components/EditModal.tsx:13 | the state is the owner's section object itself, not a copy |
| EditModal.Modal.HandleSave | src/components/EditModal.tsx:15-18 | the owner receives the edited section, then the dialog closes |
| EditModal.Modal.Cancel | src/components/EditModal.tsx:113-118 | the owner hears only that the dialog closed |
| EditModal.Modal.ShapedAlone | src/components/EditModal.tsx:48-54 | on a tree-shaped state, every path is `Alone`: nothing but the path leads to the container it assigns into |
| EditModal.Modal.EditScalarAsWritten | src/components/EditModal.tsx:73-85 | as written: a top-level input (empty path) changes nothing. Otherwise the write throws exactly when the path's container is missing, and the typed text lands at `path + key`. For a path of two or more keys the old state reads as the new one. When nothing else leads to the container, in particular when the state is tree-shaped, and `path` does not read a list, the new state is `Set` of the old one at `path` with `{...old value, [key]: text}`; a tree-shaped state stays tree-shaped |
| EditModal.AssignMerged | src/components/EditModal.tsx:78-79 | `current[p] = {...current[p], [key]: text}` in place: the text lands at `path + key`, and what the old state reads as is stated for each path length. Without other routes to the container, and when `path` does not read a list, the copy is `Set` of the old document at `path` with the spread of the old value and `key` set; the copy of a tree-shaped state is a tree |
| EditModal.MergedTree | src/components/EditModal.tsx:79 | the merged object built from a tree-shaped state is a tree and shares with the state only what the value it replaces reaches |
| EditModal.MergedSnap | src/components/EditModal.tsx:79 | `{...current[p], [key]: text}` reads as the spread of the old value's document with `key` set to the text, for any value that is not an array |
| EditModal.Modal.EditScalar | src/components/EditModal.tsx:73-85 | corrected: throws exactly when `Set` fails; otherwise the section is `Set` of the old one at `path + key`, and the owner's object reads as before |
| EditModal.Modal.EditItemAsWritten | src/components/EditModal.tsx:42-56 | as written: a copy of the list with only element `index` replaced is stored at `path` itself, replacing the object that held the list; with the empty path nothing is stored. For a path of two or more keys the old state reads as the new one. When nothing else leads to the container, in particular when the state is tree-shaped, the new state is `Set` of the old one at `path` with the edited list; a tree-shaped state stays tree-shaped |
| EditModal.ReplacedTree | src/components/EditModal.tsx:43-44 | the copied list with one element replaced by a string is a tree reaching nothing the old list did not |
| EditModal.Modal.EditItem | src/components/EditModal.tsx:42-56 | corrected: the section is `Set` of the old one with the edited list at `path + key`; the owner's object reads as before |
| EditModal.TopLevelEditAsWritten | src/components/EditModal.tsx:73-108 | typing into a top-level field leaves the section as it was, whatever was typed |
| EditModal.TopLevelEdit | src/components/EditModal.tsx:73-108 | with the corrected handler the field holds the typed text |
| EditModal.CancelledDeepEditAsWritten | src/components/EditModal.tsx:73-118 | an edit two or more keys deep, then Cancel: the owner's section holds the typed text although nothing was saved; when `path` does not read a list, it is exactly `Set` of the seed at `path` with the spread of the old value and `key` set |
| EditModal.CancelledDeepEdit | src/components/EditModal.tsx:73-118 | with the corrected handler, Cancel leaves the owner's section exactly as it was |
| EditModal.NestedListEditAsWritten | src/components/EditModal.tsx:34-56 | editing a string of a nested list replaces the object that held the list by the edited list: the section is exactly `Set` of the seed at `path` with the edited list |
| EditModal.NestedListEdit | src/components/EditModal.tsx:34-56 | with the corrected handler the list itself holds the new string |
| EditModal.Open | src/components/EditModal.tsx:12-13 | a fresh dialog on a section built from a document: the state is the owner's object, reads as the document and is tree-shaped |
| EditModal.FindList | src/components/EditModal.tsx:30-41 | the rendered list of strings is a live list at `path + key` whose elements are those strings and which reads as the rendered list |
| EditModal.StringsReplacedSnap | src/components/EditModal.tsx:43-44 | `[...value]` with element `index` set to the text reads as the rendered list with that element replaced |

## Left out

- JSON text: `JSON.parse` and `JSON.stringify` are not modelled as text. Storage holds what parsing would give: a document, the empty text, or text that does not parse.
- Local storage: it is a map from key to that value. Writing and removing entries is modelled; the browser storage itself, its quota and other tabs are not.
- React scheduling: state updates take effect at once. Several updates batched in one event are not modelled, so neither are stale closures that read an old `config`.
- Floating point: document numbers are integers. Every number in the portfolio is one (ratings, indices).
- Key kinds in a path: a numeral key on an array, such as the `index.toString()` that EditModal puts in the paths of list items, is written as an `Index` step, as JavaScript reads it. A `Name` step on an array or an `Index` step on an object counts as a failed read, so the write throws. In JavaScript, `arr['x'] = v` adds a property that `JSON.stringify` drops, and `obj[3] = v` adds the key `"3"`. A `Name` step that names an inherited property, such as `constructor` or `toString`, reads as missing, so a deeper write throws; in JavaScript it reads the inherited function, and `['constructor', 'x']` assigns onto `Object` instead of throwing. No caller builds such a path.
- EditModal.Modal.EditScalarAsWritten, EditModal.Modal.EditItemAsWritten, EditModal.Modal.EditScalar, EditModal.Modal.EditItem: when the walk reads through a non-container the model returns `thrown` and keeps the dialog's state. In the source the walk runs inside a `setEditedData` updater, which React calls while rendering; the application has no error boundary, so the throw unmounts the whole page. The paths of rendered inputs always lead through containers of the state they were rendered from, so no rendered input reaches that case.
- ConfigStore.SpreadVal, Json.Spread: spreading a string makes one index key per Dafny `char`, that is per code point. JavaScript's object spread makes one key per UTF-16 code unit, so a saved bare JSON string holding a character outside the Basic Multilingual Plane gets different keys. Storage holds a bare string only when something other than the application wrote it.
- EditModal on an array section: the model opens the dialog only on an object section.
- EditModal list elements that are `null`: `typeof null === 'object'`, so the source calls `Object.entries(null)`, which throws while rendering. Only string elements are modelled.
- EditModal.Modal.EditScalarAsWritten: gives the new state as `Set` only when `path` does not read an array. Spreading an array copies its `undefined` holes as properties, which `JSON.stringify` then drops, while the array's own document shows them as `null`. The rendered inputs never put a scalar's path on an array, but an earlier list edit as written can.
- EditModal.Modal.EditScalarAsWritten, EditModal.Modal.EditItemAsWritten: the full new state is stated only when nothing else leads to the container (`Alone`), which holds on every tree-shaped state. When another property of the section holds the same object, the edit shows there too, and the model says only where the text lands. A section built from a document is a tree, but the model does not prove that an arbitrary object handed in by the owner is one.
- ConfigStore.Store.UpdateField: tree shape is proved to be kept only for a value that holds no reference (a string, a number). For an object or array value it is kept by the callers that store fresh copies (`AppendTo`), not by `UpdateField` itself, since the source lets any value be shared.
- ConfigStore.Store.UpdateConfig: does not state that tree shape is kept, because the argument's values may share objects with the configuration.
- ConfigStore.Store.UpdateField: requires `KeepsAcyclic`, so a value that contains the container it is assigned into is excluded. The source would assign it, call `setConfig`, and then throw in `JSON.stringify` when saving (src/hooks/usePortfolioConfig.ts:45-48). The model has no cyclic heaps.
- AddProjectModal.Modal.HandleSubmit: the `type="url"` check is modelled as "starts with a scheme and a colon". The browser's URL parser also rejects some links that have a scheme: `http:` or `https:` with an empty or malformed host, for example `http://`. Those links are submitted in the model.
- AddProjectModal.FillAndSubmit: its link only has to have a scheme, for the same reason as HandleSubmit.
- AddProjectModal: the browser's cleaning of a `url` input's value (newlines removed, leading and trailing white space stripped) is not modelled; the link is the text as given.
- EditModal's rendering (`renderField` producing inputs) is not modelled. Each input is a call that carries its path, key and position.
- AuthModal: when a rejection is not an object (`throw null`), reading `err.message` throws inside the `catch`. This is not modelled.
- AuthModal.Modal.SetUsername: `maxLength` stops the browser from taking more than 30 code units as the user types; here any text is set and the over-long username is refused at submit.
- AuthModal: `type="email"` syntax checking by the browser is not modelled. The email only has to be non-empty.
- AuthModal: `setLoading(false)` after `onClose` has unmounted the dialog is not modelled.
- AuthModal: the sign-in and sign-up calls are outside the model. Their outcome is an input to `FinishSubmit`.
- EditableText: the focus, caret and auto-height effect is not modelled. Neither is whether removing the text area after Enter fires a second blur.
- EditableImage: rendering the placeholder icon and the hover hint is not modelled. Whether a URL loads is an input (`ImageLoad` / `ImageError`).
- Sharing: `handleShare` in both templates (clipboard access and a timer) is I/O and is not modelled.
- Image upload: `ImageUploader` reads files with `FileReader`. Its `onChange` is an arbitrary string.
- Clock: `Date.now()` is the `now` parameter of `HandleAddProject`.
- DOM: the `document.body.style.overflow` writes are not modelled.
- Development template state that nothing here reads is not modelled: `socialLinks`, `showAddProject` and `showShareTooltip`.
- Graphic design template: the `showAddProject` and `showAddTestimonial` flags only choose which dialog is rendered, and are not modelled.
- Rendering, routing and the other components of the application are not part of this model.

## Findings

| source | as written | input that shows it | evidently intended | confidence | as-written member | corrected member |
|---|---|---|---|---|---|---|
| src/hooks/usePortfolioConfig.ts:36-49 | only the top-level object is copied; a path of two or more keys assigns into containers shared with the previous state, which at first is `defaultConfig` | a fresh page, `updateField(['hero','name'], 'X')`, then `resetConfig()`: the page still shows "X", because `defaultConfig.hero` itself was changed | every container on the path is copied, so reset shows the seed again | not executed | ConfigStore.EditThenReset | ConfigStore.EditThenResetCopying |
| src/components/EditModal.tsx:73-85 | a top-level scalar is rendered with the empty path, so the `forEach` assigns nothing and the typed text is dropped | section `{"email": "a"}`, type "b" into the email input: the section still reads `{"email": "a"}` | the property takes the typed text | not executed | EditModal.TopLevelEditAsWritten | EditModal.TopLevelEdit |
| src/components/EditModal.tsx:42-56 | the edited list is assigned at `path`, the object that holds the list, not at `path + key` | section `{"a": {"tags": ["x", "y"]}}`, element 0 of `tags` edited to "z": `a` becomes `["z", "y"]` | `a.tags` becomes `["z", "y"]` | not executed | EditModal.NestedListEditAsWritten | EditModal.NestedListEdit |
| src/components/EditModal.tsx:73-85 | `useState(data)` keeps the owner's object, and only the top level is copied, so an edit two or more keys deep changes the owner's data before Save | section `{"a": {"b": {"c": "x"}}}`, type "y" into `c`, then Cancel: the owner's `a.b.c` reads "y" | Cancel leaves the owner's data as it was | not executed | EditModal.CancelledDeepEditAsWritten | EditModal.CancelledDeepEdit |
| src/components/templates/DevelopmentTemplate.tsx:419-454 | every editor field's `onChange` calls `handleUpdateProject`, which saves the draft and closes the editor | open the editor on the first project and make its title read "a" and then "ab": the editor is closed after "a", and "a" is saved | edits change the draft; "Save Changes" stores it | not executed | Development.TypeTitleAsWritten | Development.TypeTitle |
| src/components/AuthModal.tsx:88 | `pattern="[a-zA-Z0-9_-]+"`; browsers compile `pattern` with the RegExp `v` flag, where an unescaped `-` in a class is a syntax error, so the pattern is ignored | sign-up with username "a b c", email "e@x.io", password "secret": the form submits and the sign-up call is made | only letters, digits, underscores and hyphens, as the title at line 89 says (written `[a-zA-Z0-9_\-]+`) | not executed | AuthModal.SpacedUsernameAsWritten | AuthModal.SpacedUsername |
| src/components/EditableImage.tsx:19-30 | `error` records whether the current `src` failed to load, yet `handleBlur` uses it to refuse the new URL; `src` only changes when the owner receives a URL, so a broken image can never be replaced | `src` that fails to load, double-click, type a working URL, blur: the owner receives nothing, and the same happens on every retry | a newly typed URL is handed over, so a broken image can be replaced | not executed | EditableImage.BrokenImageStuck | EditableImage.ReplaceBrokenImage |
