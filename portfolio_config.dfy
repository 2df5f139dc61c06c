/**
 * The portfolio document's shape (`PortfolioConfig`) and the seed document
 * (`defaultConfig`) from src/config/portfolioConfig.ts, with the JSON form the
 * store keeps on the heap and in storage.
 */
module PortfolioConfig {
  import opened Options
  import opened Json

  datatype Hero = Hero(name: string, title: string, description: string, image: string)

  /** A project card; the full description and the gallery are the only optional fields. */
  datatype Project = Project(
    title: string,
    description: string,
    imageUrl: string,
    category: string,
    link: string,
    fullDescription: Option<string>,
    additionalImages: Option<seq<string>>)

  datatype Testimonial = Testimonial(name: string, role: string, company: string, image: string, content: string, rating: int)

  datatype Client = Client(name: string, icon: string)

  datatype Social = Social(platform: string, url: string)

  datatype Contact = Contact(email: string, socials: seq<Social>)

  datatype Config = Config(
    hero: Hero,
    projects: seq<Project>,
    testimonials: seq<Testimonial>,
    clients: seq<Client>,
    contact: Contact)

  /** The five top-level sections of a portfolio document. */
  const Sections: set<string> := {"hero", "projects", "testimonials", "clients", "contact"}

  /** The seed document: every section and every hero and contact field filled in. */
  function DefaultConfig(): (c: Config)
    ensures c.hero.name != "" && c.hero.title != "" && c.hero.description != "" && c.hero.image != ""
    ensures c.contact.email != "" && |c.contact.socials| == 3
    ensures |c.projects| == 1 && c.projects[0].fullDescription.Some?
    ensures c.projects[0].additionalImages.Some? && |c.projects[0].additionalImages.value| == 3
    ensures |c.testimonials| == 1 && c.testimonials[0].rating == 5
    ensures |c.clients| == 6
    ensures forall i, j :: 0 <= i < j < |c.clients| ==> c.clients[i].name != c.clients[j].name
  {
    Config(SeedHero, [SeedProject], [SeedTestimonial], SeedClients, SeedContact)
  }

  /** The long texts of the seed document, kept apart so that proofs about it need not spell them out. */
  const TechVisionStory: string := "Created a comprehensive brand identity for TechVision, a leading tech startup. The project included logo design, color palette selection, typography guidelines, and brand usage documentation."
  const AlexQuote: string := "Working with Asad was an absolute pleasure. His attention to detail and creative vision transformed our website into something truly exceptional."

  const SeedHero: Hero :=
    Hero(
      "Asad Synt",
      "I create webpages that transform your visitors into clients!",
      "I am a fervent web design enthusiast. My commitment lies in creating aesthetically stunning and operationally vigorous websites.",
      "https://images.unsplash.com/photo-1498050108023-c5249f4df085?auto=format&fit=crop&q=80")

  const SeedProject: Project :=
    Project(
      "Brand Identity - TechVision",
      "Complete brand identity design including logo, color palette, and brand guidelines",
      "https://images.unsplash.com/photo-1634942537034-2531766767d1?auto=format&fit=crop&q=80",
      "Branding",
      "#",
      Some(TechVisionStory),
      Some([
        "https://images.unsplash.com/photo-1636622433525-127afdf3662d?auto=format&fit=crop&q=80",
        "https://images.unsplash.com/photo-1636622433209-9b8a7b0b4426?auto=format&fit=crop&q=80",
        "https://images.unsplash.com/photo-1636622433195-9e77c55c58f8?auto=format&fit=crop&q=80"]))

  const SeedTestimonial: Testimonial :=
    Testimonial(
      "Alex Thompson",
      "Creative Director",
      "DesignCraft Studios",
      "https://images.unsplash.com/photo-1472099645785-5658abf4ff4e?auto=format&fit=crop&q=80",
      AlexQuote,
      5)

  const SeedClients: seq<Client> :=
    [Client("Adobe", "Palette"), Client("Microsoft", "Monitor"), Client("Google", "Globe"),
     Client("Meta", "Layout"), Client("Apple", "Smartphone"), Client("Amazon", "Code")]

  const SeedContact: Contact :=
    Contact(
      "contact@example.com",
      [Social("Twitter", "https://twitter.com"), Social("LinkedIn", "https://linkedin.com"),
       Social("Dribbble", "https://dribbble.com")])

  // ----- The JSON form -----

  function ListJson<T>(xs: seq<T>, f: T -> Json): (j: Json)
    ensures j.JArray? && |j.items| == |xs|
  {
    JArray(seq(|xs|, i requires 0 <= i < |xs| => f(xs[i])))
  }

  /** Reads every element with `g`; None as soon as one does not read. */
  function ListFrom<T>(items: seq<Json>, g: Json -> Option<T>): Option<seq<T>>
    decreases |items|
  {
    if items == [] then Some([])
    else match (g(items[0]), ListFrom(items[1..], g))
      case (Some(x), Some(rest)) => Some([x] + rest)
      case _ => None
  }

  lemma {:induction false} ListRoundTrip<T>(xs: seq<T>, f: T -> Json, g: Json -> Option<T>)
    requires forall x :: x in xs ==> g(f(x)) == Some(x)
    ensures ListFrom(ListJson(xs, f).items, g) == Some(xs)
    decreases |xs|
  {
    if xs != [] {
      assert ListJson(xs, f).items[1..] == ListJson(xs[1..], f).items;
      ListRoundTrip(xs[1..], f, g);
      assert [xs[0]] + xs[1..] == xs;
    }
  }

  function Str(fs: map<string, Json>, k: string): Option<string> {
    if k in fs && fs[k].JString? then Some(fs[k].s) else None
  }

  function StrJson(s: string): Json { JString(s) }

  function StrFrom(j: Json): Option<string> {
    if j.JString? then Some(j.s) else None
  }

  function HeroJson(h: Hero): Json {
    JObject(map["name" := JString(h.name), "title" := JString(h.title),
                "description" := JString(h.description), "image" := JString(h.image)])
  }

  function HeroFrom(j: Json): Option<Hero> {
    if !j.JObject? then None
    else
      var fs := j.fields;
      if Str(fs, "name").Some? && Str(fs, "title").Some? && Str(fs, "description").Some? && Str(fs, "image").Some?
      then Some(Hero(Str(fs, "name").value, Str(fs, "title").value, Str(fs, "description").value, Str(fs, "image").value))
      else None
  }

  /** A project object; the optional fields appear only when set. */
  function ProjectJson(p: Project): Json {
    var base := map["title" := JString(p.title), "description" := JString(p.description),
                     "imageUrl" := JString(p.imageUrl), "category" := JString(p.category),
                     "link" := JString(p.link)];
    var withFull := if p.fullDescription.Some? then base["fullDescription" := JString(p.fullDescription.value)] else base;
    JObject(if p.additionalImages.Some? then withFull["additionalImages" := ListJson(p.additionalImages.value, StrJson)] else withFull)
  }

  /** An optional field: absent reads as None, present must read. */
  function OptionalFrom<T>(fs: map<string, Json>, k: string, g: Json -> Option<T>): Option<Option<T>> {
    if k !in fs then Some(None)
    else match g(fs[k]) case None => None case Some(x) => Some(Some(x))
  }

  function StringsFrom(j: Json): Option<seq<string>> {
    if j.JArray? then ListFrom(j.items, StrFrom) else None
  }

  function ProjectFrom(j: Json): Option<Project> {
    if !j.JObject? then None
    else
      var fs := j.fields;
      var full := OptionalFrom(fs, "fullDescription", StrFrom);
      var images := OptionalFrom(fs, "additionalImages", StringsFrom);
      if Str(fs, "title").Some? && Str(fs, "description").Some? && Str(fs, "imageUrl").Some?
         && Str(fs, "category").Some? && Str(fs, "link").Some? && full.Some? && images.Some?
      then Some(Project(Str(fs, "title").value, Str(fs, "description").value, Str(fs, "imageUrl").value,
                        Str(fs, "category").value, Str(fs, "link").value, full.value, images.value))
      else None
  }

  function TestimonialJson(t: Testimonial): Json {
    JObject(map["name" := JString(t.name), "role" := JString(t.role), "company" := JString(t.company),
                "image" := JString(t.image), "content" := JString(t.content), "rating" := JNumber(t.rating)])
  }

  function TestimonialFrom(j: Json): Option<Testimonial> {
    if !j.JObject? then None
    else
      var fs := j.fields;
      if Str(fs, "name").Some? && Str(fs, "role").Some? && Str(fs, "company").Some? && Str(fs, "image").Some?
         && Str(fs, "content").Some? && "rating" in fs && fs["rating"].JNumber?
      then Some(Testimonial(Str(fs, "name").value, Str(fs, "role").value, Str(fs, "company").value,
                            Str(fs, "image").value, Str(fs, "content").value, fs["rating"].n))
      else None
  }

  function ClientJson(c: Client): Json {
    JObject(map["name" := JString(c.name), "icon" := JString(c.icon)])
  }

  function ClientFrom(j: Json): Option<Client> {
    if j.JObject? && Str(j.fields, "name").Some? && Str(j.fields, "icon").Some?
    then Some(Client(Str(j.fields, "name").value, Str(j.fields, "icon").value))
    else None
  }

  function SocialJson(s: Social): Json {
    JObject(map["platform" := JString(s.platform), "url" := JString(s.url)])
  }

  function SocialFrom(j: Json): Option<Social> {
    if j.JObject? && Str(j.fields, "platform").Some? && Str(j.fields, "url").Some?
    then Some(Social(Str(j.fields, "platform").value, Str(j.fields, "url").value))
    else None
  }

  function ContactJson(c: Contact): Json {
    JObject(map["email" := JString(c.email), "socials" := ListJson(c.socials, SocialJson)])
  }

  function ContactFrom(j: Json): Option<Contact> {
    if j.JObject? && Str(j.fields, "email").Some? && "socials" in j.fields && j.fields["socials"].JArray? then
      match ListFrom(j.fields["socials"].items, SocialFrom)
      case None => None
      case Some(ss) => Some(Contact(Str(j.fields, "email").value, ss))
    else None
  }

  /** The document as the store holds it: an object with exactly the five sections. */
  function ToJson(c: Config): (j: Json)
    ensures j.JObject? && j.fields.Keys == Sections
    ensures j.fields["projects"].JArray? && |j.fields["projects"].items| == |c.projects|
    ensures j.fields["testimonials"].JArray? && |j.fields["testimonials"].items| == |c.testimonials|
  {
    JObject(map["hero" := HeroJson(c.hero),
                "projects" := ListJson(c.projects, ProjectJson),
                "testimonials" := ListJson(c.testimonials, TestimonialJson),
                "clients" := ListJson(c.clients, ClientJson),
                "contact" := ContactJson(c.contact)])
  }

  /** Reads a document back into the typed form, if it has the shape. */
  function FromJson(j: Json): Option<Config> {
    if !j.JObject? || !(Sections <= j.fields.Keys) then None
    else
      var fs := j.fields;
      var hero := HeroFrom(fs["hero"]);
      var projects := if fs["projects"].JArray? then ListFrom(fs["projects"].items, ProjectFrom) else None;
      var testimonials := if fs["testimonials"].JArray? then ListFrom(fs["testimonials"].items, TestimonialFrom) else None;
      var clients := if fs["clients"].JArray? then ListFrom(fs["clients"].items, ClientFrom) else None;
      var contact := ContactFrom(fs["contact"]);
      if hero.Some? && projects.Some? && testimonials.Some? && clients.Some? && contact.Some?
      then Some(Config(hero.value, projects.value, testimonials.value, clients.value, contact.value))
      else None
  }

  lemma ProjectRoundTrip(p: Project)
    ensures ProjectFrom(ProjectJson(p)) == Some(p)
  {
    var fs := ProjectJson(p).fields;
    assert Str(fs, "title") == Some(p.title) && Str(fs, "description") == Some(p.description);
    assert Str(fs, "imageUrl") == Some(p.imageUrl) && Str(fs, "category") == Some(p.category);
    assert Str(fs, "link") == Some(p.link);
    assert OptionalFrom(fs, "fullDescription", StrFrom) == Some(p.fullDescription);
    if p.additionalImages.Some? {
      ListRoundTrip(p.additionalImages.value, StrJson, StrFrom);
      assert fs["additionalImages"] == ListJson(p.additionalImages.value, StrJson);
    }
    assert OptionalFrom(fs, "additionalImages", StringsFrom) == Some(p.additionalImages);
  }

  lemma TestimonialRoundTrip(t: Testimonial)
    ensures TestimonialFrom(TestimonialJson(t)) == Some(t)
  {
  }

  lemma ContactRoundTrip(c: Contact)
    ensures ContactFrom(ContactJson(c)) == Some(c)
  {
    ListRoundTrip(c.socials, SocialJson, SocialFrom);
  }

  lemma ProjectsRoundTrip(ps: seq<Project>)
    ensures ListFrom(ListJson(ps, ProjectJson).items, ProjectFrom) == Some(ps)
  {
    forall p | p in ps ensures ProjectFrom(ProjectJson(p)) == Some(p) {
      ProjectRoundTrip(p);
    }
    ListRoundTrip(ps, ProjectJson, ProjectFrom);
  }

  lemma TestimonialsRoundTrip(ts: seq<Testimonial>)
    ensures ListFrom(ListJson(ts, TestimonialJson).items, TestimonialFrom) == Some(ts)
  {
    forall t | t in ts ensures TestimonialFrom(TestimonialJson(t)) == Some(t) {
      TestimonialRoundTrip(t);
    }
    ListRoundTrip(ts, TestimonialJson, TestimonialFrom);
  }

  /** Reading back the JSON form gives the typed document again. */
  lemma RoundTrip(c: Config)
    ensures FromJson(ToJson(c)) == Some(c)
  {
    var fs := ToJson(c).fields;
    assert HeroFrom(fs["hero"]) == Some(c.hero);
    assert fs["projects"] == ListJson(c.projects, ProjectJson);
    ProjectsRoundTrip(c.projects);
    assert fs["testimonials"] == ListJson(c.testimonials, TestimonialJson);
    TestimonialsRoundTrip(c.testimonials);
    assert fs["clients"] == ListJson(c.clients, ClientJson);
    ListRoundTrip(c.clients, ClientJson, ClientFrom);
    assert fs["contact"] == ContactJson(c.contact);
    ContactRoundTrip(c.contact);
  }

  /** The seed document's JSON form has its hero name where the hero editor writes it. */
  lemma DefaultHeroName()
    ensures Get(ToJson(DefaultConfig()), [Name("hero"), Name("name")]) == Some(JString("Asad Synt"))
  {
  }
}
