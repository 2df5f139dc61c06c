/**
 * The "Add Testimonial" dialog of src/components/AddTestimonialModal.tsx:
 * a form with the fields of a stored testimonial, a row of five star
 * buttons that pick the rating, and a submit that hands the form to the
 * page and closes the dialog.
 */
module AddTestimonialModal {
  import opened Seqs
  import PortfolioConfig

  type Testimonial = PortfolioConfig.Testimonial

  const DefaultImage: string := "https://images.unsplash.com/photo-1472099645785-5658abf4ff4e?auto=format&fit=crop&q=80"

  /** A freshly opened dialog: a stock portrait, five stars, every text empty. */
  const InitialForm: Testimonial := PortfolioConfig.Testimonial("", "", "", DefaultImage, "", 5)

  /** The ratings the star buttons offer, in the order they are drawn. */
  const Stars: seq<int> := [1, 2, 3, 4, 5]

  /** The text inputs of the form and the portrait uploader. */
  datatype FormField = ImageField | NameField | RoleField | CompanyField | ContentField

  function Read(form: Testimonial, f: FormField): string {
    match f
    case ImageField => form.image
    case NameField => form.name
    case RoleField => form.role
    case CompanyField => form.company
    case ContentField => form.content
  }

  /** `{ ...prev, [field]: text }`: only the input's own field changes, the rating is kept. */
  function WithField(form: Testimonial, f: FormField, text: string): (r: Testimonial)
    ensures Read(r, f) == text
    ensures forall g :: g != f ==> Read(r, g) == Read(form, g)
    ensures r.rating == form.rating
  {
    match f
    case ImageField => form.(image := text)
    case NameField => form.(name := text)
    case RoleField => form.(role := text)
    case CompanyField => form.(company := text)
    case ContentField => form.(content := text)
  }

  /** The browser submits only when name, role, company and the quote are filled; the portrait is optional. */
  predicate Submittable(form: Testimonial) {
    form.name != "" && form.role != "" && form.company != "" && form.content != ""
  }

  /** A star is drawn filled when its number is at most the form's rating. */
  predicate Filled(star: int, rating: int) {
    star <= rating
  }

  /** The filled stars of a rating. */
  function FilledStars(rating: int): seq<int> {
    Filter(Stars, (s: int) => Filled(s, rating))
  }

  /** A rating picked from the row fills exactly that many stars, the first ones of the row. */
  lemma FilledStarsCount(rating: int)
    requires rating in Stars
    ensures FilledStars(rating) == Stars[..rating]
    ensures |FilledStars(rating)| == rating
  {
    assert forall i :: 0 <= i < |Stars| ==> Stars[i] == i + 1;
    FilterPrefix(Stars, (s: int) => Filled(s, rating), rating);
  }

  /** What the dialog tells the page. */
  datatype Event = Saved(testimonial: Testimonial) | Closed

  class Modal {
    var formData: Testimonial

    /** The rating is always one of the five stars. */
    predicate Valid()
      reads this
    {
      formData.rating in Stars
    }

    constructor ()
      ensures Valid() && formData == InitialForm
    {
      formData := InitialForm;
    }

    method SetField(f: FormField, text: string)
      requires Valid()
      modifies this
      ensures Valid() && formData == WithField(old(formData), f, text)
    {
      formData := WithField(formData, f, text);
    }

    /** A star button: the rating becomes that star's number. */
    method PickRating(rating: int)
      requires rating in Stars
      modifies this
      ensures Valid() && formData == old(formData).(rating := rating)
    {
      formData := formData.(rating := rating);
    }

    /** Submitting hands the form over unchanged and closes the dialog; with an empty required input nothing is sent. */
    method HandleSubmit() returns (events: seq<Event>)
      requires Valid()
      ensures Submittable(formData) ==> events == [Saved(formData), Closed]
      ensures !Submittable(formData) ==> events == []
      ensures forall e :: e in events && e.Saved? ==> 1 <= e.testimonial.rating <= 5
    {
      if Submittable(formData) {
        events := [Saved(formData), Closed];
      } else {
        events := [];
      }
    }

    method Cancel() returns (events: seq<Event>)
      ensures events == [Closed]
    {
      events := [Closed];
    }
  }

  /** A testimonial entered without touching the stars is saved with five stars and the stock portrait. */
  method QuickTestimonial(name: string, role: string, company: string, quote: string) returns (events: seq<Event>)
    requires name != "" && role != "" && company != "" && quote != ""
    ensures events == [Saved(PortfolioConfig.Testimonial(name, role, company, DefaultImage, quote, 5)), Closed]
  {
    var m := new Modal();
    m.SetField(NameField, name);
    m.SetField(RoleField, role);
    m.SetField(CompanyField, company);
    m.SetField(ContentField, quote);
    events := m.HandleSubmit();
  }

  /** Picking twice keeps only the last pick. */
  method RePick(first: int, second: int) returns (rating: int)
    requires first in Stars && second in Stars
    ensures rating == second && |FilledStars(rating)| == second
  {
    var m := new Modal();
    m.PickRating(first);
    m.PickRating(second);
    rating := m.formData.rating;
    FilledStarsCount(rating);
  }
}
