/** The resume state the application holds (`CVData` in src/types/cv.ts and
    the `useState` in src/App.tsx): the initial state with its default
    sections, the upload of a Markdown file, and the four change handlers the
    editors call. */
module AppState {
  import opened Wrappers
  import opened Text
  import opened Sections
  import opened MarkdownParser

  /** The seven contact fields of `personalInfo`. */
  datatype PersonalInfo = PersonalInfo(
    name: string,
    email: string,
    phone: string,
    location: string,
    website: string,
    linkedin: string,
    github: string)

  /** A customization value: the colours and the font family are strings, the
      font size and the spacing numbers. */
  datatype Value = Str(s: string) | Num(n: real)

  /** The whole state. `customization` is a map because the customization
      handler can write any key. */
  datatype CvData = CvData(
    sections: seq<Section>,
    personalInfo: PersonalInfo,
    template: string,
    customization: map<string, Value>)

  // ---------------------------------------------------------------------------
  // The initial state
  // ---------------------------------------------------------------------------

  function Plain(id: string, kind: string, title: string, content: string, order: int, required: bool): Section {
    Section(id, kind, title, content, order, required, None)
  }

  /** The sample texts of the six default sections, in sequence. */
  function SampleContent(k: nat): string {
    match k
    case 0 => "Software Engineer with 5+ years building scalable systems. Expert in distributed systems, algorithms, and system design. Led teams of 8+ engineers delivering products used by millions."
    case 1 => "### Senior Software Engineer | Meta\n*Jan 2022 - Present*\n\U{2022} Led development of distributed caching system serving 100M+ requests/day, reducing latency by 40%\n\U{2022} Designed and implemented microservices architecture supporting 50+ engineering teams\n\U{2022} Mentored 5 junior engineers, with 100% promotion rate within 18 months\n\U{2022} Technologies: Java, Python, Kubernetes, Redis, PostgreSQL\n\n### Software Engineer | Amazon\n*Jun 2019 - Dec 2021*\n\U{2022} Built real-time analytics platform processing 1TB+ data daily with 99.9% uptime\n\U{2022} Optimized recommendation algorithms improving click-through rates by 25%\n\U{2022} Collaborated with ML teams to deploy models serving 10M+ customers\n\U{2022} Technologies: Python, AWS, Spark, DynamoDB, Docker"
    case 2 => "\U{2022} **Languages:** Python, Java, C++, JavaScript, Go, SQL\n\U{2022} **Systems:** AWS, GCP, Kubernetes, Docker, Redis, Kafka, Elasticsearch\n\U{2022} **Databases:** PostgreSQL, MongoDB, DynamoDB, BigQuery\n\U{2022} **ML/AI:** TensorFlow, PyTorch, Scikit-learn, Pandas, NumPy\n\U{2022} **Tools:** Git, Jenkins, Terraform, Prometheus, Grafana"
    case 3 => "### Distributed Task Scheduler\n*Python, Kubernetes, Redis*\n\U{2022} Built fault-tolerant task scheduling system handling 1M+ jobs/day\n\U{2022} Implemented auto-scaling reducing infrastructure costs by 30%\n\U{2022} **[GitHub](https://github.com/username/task-scheduler)**\n\n### Real-time Chat Application\n*Node.js, WebSocket, MongoDB*\n\U{2022} Developed chat platform supporting 10K+ concurrent users\n\U{2022} Implemented end-to-end encryption and message persistence\n\U{2022} **[Live Demo](https://chat-app-demo.com)**"
    case 4 => "### Master of Science in Computer Science | Stanford University\n*2017 - 2019* | GPA: 3.9/4.0\n\U{2022} Specialization: Distributed Systems and Machine Learning\n\U{2022} Relevant Coursework: Advanced Algorithms, System Design, ML Theory\n\n### Bachelor of Science in Computer Engineering | UC Berkeley\n*2013 - 2017* | GPA: 3.8/4.0 | Magna Cum Laude"
    case 5 => "\U{2022} **Patents:** 2 US patents in distributed systems and caching technologies\n\U{2022} **Publications:** 3 peer-reviewed papers in top-tier conferences (SOSP, OSDI)\n\U{2022} **Awards:** Employee of the Year 2023, Hackathon Winner (Best Technical Innovation)\n\U{2022} **Certifications:** AWS Solutions Architect Professional, Google Cloud Professional"
    case _ => ""
  }

  /** `defaultSections` with the six texts `c`: everything proved about the
      fixture holds whatever its texts are. */
  function DefaultSectionsWith(c: seq<string>): (r: seq<Section>)
    requires |c| == 6
    ensures |r| == 6
    ensures forall k | 0 <= k < 6 :: r[k].content == c[k]
  {
    [ Plain("summary", "professional-summary", "Summary", c[0], 0, true),
      Plain("experience", "work-experience", "Experience", c[1], 1, true),
      Plain("skills", "technical-skills", "Technical Skills", c[2], 2, true),
      Plain("projects", "projects", "Projects", c[3], 3, false),
      Plain("education", "education", "Education", c[4], 4, true),
      Plain("achievements", "achievements", "Achievements", c[5], 5, false) ]
  }

  function SampleContents(): seq<string> {
    [SampleContent(0), SampleContent(1), SampleContent(2), SampleContent(3), SampleContent(4), SampleContent(5)]
  }

  /** `defaultSections`: the six sections a new resume starts with. */
  function DefaultSections(): seq<Section> {
    DefaultSectionsWith(SampleContents())
  }

  function EmptyPersonalInfo(): PersonalInfo {
    PersonalInfo("", "", "", "", "", "", "")
  }

  function DefaultCustomization(): map<string, Value> {
    map[
      "primaryColor" := Str("#2563eb"),
      "secondaryColor" := Str("#4f46e5"),
      "fontFamily" := Str("Arial, sans-serif"),
      "fontSize" := Num(11.0),
      "spacing" := Num(1.2)]
  }

  function InitialStateWith(c: seq<string>): CvData
    requires |c| == 6
  {
    CvData(DefaultSectionsWith(c), EmptyPersonalInfo(), "google-standard", DefaultCustomization())
  }

  /** The state the application starts in (before a saved state is loaded). */
  function InitialState(): CvData {
    InitialStateWith(SampleContents())
  }

  /** The default sections are numbered 0..5 in sequence and their ids differ. */
  lemma DefaultSectionsWellFormed(c: seq<string>)
    requires |c| == 6
    ensures DenseOrder(DefaultSectionsWith(c))
    ensures DistinctIds(DefaultSectionsWith(c))
    ensures forall k | 0 <= k < 6 :: DefaultSectionsWith(c)[k].placement == None
  {
    var s := DefaultSectionsWith(c);
    forall i, j | 0 <= i < j < 6 ensures s[i].id != s[j].id {
      assert |s[i].id| != |s[j].id|;
    }
  }

  /** Summary, experience, skills and education are required and projects and
      achievements are not; summary and skills are required although their
      types are not among the kinds the extractor marks as required. */
  lemma DefaultRequiredFlags(c: seq<string>)
    requires |c| == 6
    ensures var s := DefaultSectionsWith(c);
      && s[0].required && s[1].required && s[2].required && !s[3].required
      && s[4].required && !s[5].required
      && s[0].kind !in RequiredKinds && s[2].kind !in RequiredKinds
  {
    var s := DefaultSectionsWith(c);
    assert |s[0].kind| == 20 && |s[2].kind| == 16;
    assert forall k | 0 <= k < 3 :: |RequiredKinds[k]| < 11;
  }

  /** The initial state: the default sections, empty contact fields, the
      `google-standard` template and five customization keys. */
  lemma InitialStateFacts(c: seq<string>)
    requires |c| == 6
    ensures var st := InitialStateWith(c);
      && DenseOrder(st.sections) && DistinctIds(st.sections)
      && st.personalInfo == PersonalInfo("", "", "", "", "", "", "")
      && st.template == "google-standard"
      && st.customization.Keys == {"primaryColor", "secondaryColor", "fontFamily", "fontSize", "spacing"}
      && st.customization["fontSize"] == Num(11.0)
  {
    DefaultSectionsWellFormed(c);
  }

  // ---------------------------------------------------------------------------
  // handleFileUpload
  // ---------------------------------------------------------------------------

  /** `handleFileUpload(content)`: the sections of the uploaded text replace
      the current ones, unless the text yields none, in which case nothing
      changes. */
  function HandleFileUpload(st: CvData, content: string, clock: nat -> nat): (r: CvData)
    ensures r == st || r == st.(sections := ExtractSections(content, clock))
    ensures |r.sections| > 0 || r == st
    ensures r.personalInfo == st.personalInfo && r.template == st.template
    ensures r.customization == st.customization
  {
    var sections := ExtractSections(content, clock);
    if |sections| > 0 then st.(sections := sections) else st
  }

  /** An upload takes over the extracted sections when the text has a
      heading line and leaves the state alone otherwise; a non-empty list
      stays non-empty, and when the list was non-empty the take-over is
      visible as the sections becoming the extracted ones exactly when there
      is a heading. (On an empty list a text without headings also "yields"
      the empty extraction, so that direction needs the list non-empty.) */
  lemma {:induction false} UploadIffHeading(st: CvData, content: string, clock: nat -> nat)
    ensures var lines := Split(content, '\n');
      var r := HandleFileUpload(st, content, clock);
      && (|st.sections| > 0 ==>
            ((exists j | 0 <= j < |lines| :: IsHeading(lines[j])) <==> r.sections == ExtractSections(content, clock)))
      && ((forall j | 0 <= j < |lines| :: !IsHeading(lines[j])) ==> r == st)
      && ((exists j | 0 <= j < |lines| :: IsHeading(lines[j])) ==> r == st.(sections := ExtractSections(content, clock)))
      && ((|st.sections| > 0 || exists j | 0 <= j < |lines| :: IsHeading(lines[j])) ==> |r.sections| > 0)
      && (DenseOrder(st.sections) ==> DenseOrder(r.sections))
  {
    NoSectionsIffNoHeading(content, clock);
  }

  // ---------------------------------------------------------------------------
  // The change handlers
  // ---------------------------------------------------------------------------

  /** `handleSectionsChange`. */
  function SetSections(st: CvData, sections: seq<Section>): (r: CvData)
    ensures r.sections == sections
    ensures r.personalInfo == st.personalInfo && r.template == st.template
    ensures r.customization == st.customization
  {
    st.(sections := sections)
  }

  /** `handlePersonalInfoChange`: the editor passes the whole record. */
  function SetPersonalInfo(st: CvData, info: PersonalInfo): (r: CvData)
    ensures r.personalInfo == info
    ensures r.sections == st.sections && r.template == st.template
    ensures r.customization == st.customization
  {
    st.(personalInfo := info)
  }

  /** `handleTemplateSelect`. */
  function SetTemplate(st: CvData, template: string): (r: CvData)
    ensures r.template == template
    ensures r.sections == st.sections && r.personalInfo == st.personalInfo
    ensures r.customization == st.customization
  {
    st.(template := template)
  }

  /** `handleCustomizationChange(key, value)`: one key is written, every other
      key keeps its presence and value. */
  function SetCustomization(st: CvData, key: string, value: Value): (r: CvData)
    ensures key in r.customization && r.customization[key] == value
    ensures forall k | k != key :: (k in r.customization <==> k in st.customization)
    ensures forall k | k != key && k in st.customization :: r.customization[k] == st.customization[k]
    ensures r.sections == st.sections && r.personalInfo == st.personalInfo
    ensures r.template == st.template
  {
    st.(customization := st.customization[key := value])
  }

  /** One change of the state. */
  datatype Action =
    | Upload(content: string, clock: nat -> nat)
    | ChangeSections(sections: seq<Section>)
    | ChangePersonalInfo(info: PersonalInfo)
    | SelectTemplate(template: string)
    | Customize(key: string, value: Value)

  function Apply(st: CvData, a: Action): CvData {
    match a
    case Upload(content, clock) => HandleFileUpload(st, content, clock)
    case ChangeSections(s) => SetSections(st, s)
    case ChangePersonalInfo(info) => SetPersonalInfo(st, info)
    case SelectTemplate(t) => SetTemplate(st, t)
    case Customize(k, v) => SetCustomization(st, k, v)
  }

  /** Which top-level field an action writes. */
  datatype Part = SectionsPart | PersonalInfoPart | TemplatePart | CustomizationPart

  function Writes(a: Action): Part {
    match a
    case Upload(_, _) => SectionsPart
    case ChangeSections(_) => SectionsPart
    case ChangePersonalInfo(_) => PersonalInfoPart
    case SelectTemplate(_) => TemplatePart
    case Customize(_, _) => CustomizationPart
  }

  /** Actions on different parts of the state can be applied in either order. */
  lemma {:induction false} ActionsCommute(st: CvData, a: Action, b: Action)
    requires Writes(a) != Writes(b)
    ensures Apply(Apply(st, a), b) == Apply(Apply(st, b), a)
  {
  }

  /** Two writes of the same kind keep only the second (for the same key, in
      the case of the customization). */
  lemma LastWriteWins(st: CvData, a: Action, b: Action)
    requires Writes(a) == Writes(b) && !a.Upload? && !b.Upload?
    requires a.Customize? ==> a.key == b.key
    ensures Apply(Apply(st, a), b) == Apply(st, b)
  {
    if a.Customize? {
      assert st.customization[a.key := a.value][b.key := b.value] == st.customization[b.key := b.value];
    }
  }

  /** Customizing different keys commutes. */
  lemma CustomizeCommutes(st: CvData, k1: string, v1: Value, k2: string, v2: Value)
    requires k1 != k2
    ensures SetCustomization(SetCustomization(st, k1, v1), k2, v2)
      == SetCustomization(SetCustomization(st, k2, v2), k1, v1)
  {
    assert st.customization[k1 := v1][k2 := v2] == st.customization[k2 := v2][k1 := v1];
  }

  /** Writing back the value a key already has changes nothing. */
  lemma CustomizeSameValue(st: CvData, key: string)
    requires key in st.customization
    ensures SetCustomization(st, key, st.customization[key]) == st
  {
    assert st.customization[key := st.customization[key]] == st.customization;
  }

  /** An upload never leaves the state without sections, and keeps it dense. */
  lemma {:induction false} UploadKeepsSections(st: CvData, content: string, clock: nat -> nat)
    ensures var r := Apply(st, Upload(content, clock));
      && (|st.sections| > 0 ==> |r.sections| > 0)
      && (DenseOrder(st.sections) ==> DenseOrder(r.sections))
      && (DistinctIds(st.sections) ==> DistinctIds(r.sections))
  {
  }
}
