/** The subject taxonomy the allocator's timing rules consult
    (src/App.js:56-60, 188-205). */
module Subjects {
  import opened Wrappers
  import opened Grid

  /** A subject name. The source compares subject names as strings; each
      catalogue name is a constructor here, and `Unlisted(name)` stands for
      any other name (written only for names outside the catalogue, the
      convention `Canonical` states), such as the placeholder '-' of an
      empty cell. */
  datatype Subject =
    | Mathematics | Physics | Chemistry | Biology | English
    | History | Geography | PE | ICT | ENT | Arabic
    | Kiswahili | Luganda | Literature | ART | Theology | GeneralPaper
    | Economics | SubMath | Islam | Divinity | Agriculture | CRE
    | Unlisted(name: string)

  /** The placeholder subject of an empty cell. */
  const Dash: Subject := Unlisted("-")

  /** The string the source holds for a subject (the catalogue of lines
      55-59, spelled as there). */
  function NameOf(s: Subject): string {
    match s
    case Mathematics => "Mathematics"
    case Physics => "Physics"
    case Chemistry => "Chemistry"
    case Biology => "Biology"
    case English => "English"
    case History => "History"
    case Geography => "Geography"
    case PE => "P.E"
    case ICT => "ICT"
    case ENT => "ENT"
    case Arabic => "Arabic"
    case Kiswahili => "Kiswahili"
    case Luganda => "Luganda"
    case Literature => "Literature"
    case ART => "ART"
    case Theology => "Theology"
    case GeneralPaper => "General Paper"
    case Economics => "Economics"
    case SubMath => "SubMath"
    case Islam => "Islam"
    case Divinity => "Divinity"
    case Agriculture => "Agriculture"
    case CRE => "CRE"
    case Unlisted(name) => name
  }

  /** The convention for `Unlisted`: it never carries a catalogue name, so
      that each string has exactly one representation. */
  predicate Canonical(s: Subject) {
    s.Unlisted? ==> forall c :: c in Catalogue ==> NameOf(c) != s.name
  }

  /** Under the convention, comparing subjects is comparing the strings
      the source compares. */
  lemma CanonicalNamesDistinct(a: Subject, b: Subject)
    requires Canonical(a) && Canonical(b)
    ensures NameOf(a) == NameOf(b) <==> a == b
  {
    if a != b {
      if !a.Unlisted? && !b.Unlisted? {
        CatalogueNamesDistinct(a, b);
      } else if !b.Unlisted? {
        UnlistedNotListed(a, b);
      } else if !a.Unlisted? {
        UnlistedNotListed(b, a);
      }
    }
  }

  lemma UnlistedNotListed(u: Subject, s: Subject)
    requires u.Unlisted? && Canonical(u) && !s.Unlisted?
    ensures NameOf(u) != NameOf(s)
  {
    ListedInCatalogue(s);
  }

  lemma ListedInCatalogue(s: Subject)
    requires !s.Unlisted?
    ensures s in Catalogue
  {
  }

  lemma CatalogueNamesDistinct(a: Subject, b: Subject)
    requires !a.Unlisted? && !b.Unlisted? && a != b
    ensures NameOf(a) != NameOf(b)
  {
  }

  lemma DashCanonical()
    ensures Canonical(Dash)
  {
  }

  /** The subject catalogue offered by the roster form. The allocator
      only ever asks whether a name is in one of these lists
      (`includes`), so they are kept as sets. */
  const Catalogue: set<Subject> := {
    Mathematics, Physics, Chemistry, Biology, English,
    History, Geography, PE, ICT, ENT, Arabic,
    Kiswahili, Luganda, Literature, ART, Theology, GeneralPaper,
    Economics, SubMath, Islam, Divinity, Agriculture, CRE}

  const Compulsory: set<Subject> := {
    Mathematics, Physics, Chemistry, Biology, English, History, Geography}

  /** `optionalSubjects`: the catalogue minus the compulsory subjects,
      General Paper and SubMath. */
  const Optional: set<Subject> := Catalogue - Compulsory - {GeneralPaper, SubMath}

  const PESubjects: set<Subject> := {PE}
  const ScienceSubjects: set<Subject> := {Mathematics, Physics, Chemistry, Biology}
  const HistorySubjects: set<Subject> := {History, Geography}

  /** `subsidiaryQuadralsPerWeek` and `subsidiaryPeriodsPerWeek`. */
  const SubsidiaryQuadralsPerWeek: nat := 2
  const SubsidiaryPeriodsPerWeek: nat := 1

  /** `simultaneousSubjects[s]`: the subjects taught in parallel with
      Islam and with ENT, and `undefined` for every other name. */
  function SimultaneousOf(s: Subject): (r: Option<seq<Subject>>)
    ensures r.Some? <==> s == Islam || s == ENT
  {
    if s == Islam then Some([CRE])
    else if s == ENT then Some([Luganda, Arabic, ICT, ART, Kiswahili])
    else None
  }

  /** Which arm of the category `if`/`else if` chain claims a subject. The
      allocator's filter callback (App.js:237-279) and its subject choice
      (App.js:295-312) test the same conditions in the same order. */
  datatype Branch =
    | CompulsoryBranch
    | OptionalBranch
    | PEBranch
    | ScienceBranch
    | HistoryBranch
    | GeneralPaperBranch
    | SubsidiaryBranch
    | SimultaneousBranch
    | Unclaimed

  function BranchOf(s: Subject, level: Level): Branch
  {
    if s in Compulsory then CompulsoryBranch
    else if s in Optional then OptionalBranch
    else if s in PESubjects then PEBranch
    else if s in ScienceSubjects then ScienceBranch
    else if s in HistorySubjects then HistoryBranch
    else if s == GeneralPaper && IsUpper(level) then GeneralPaperBranch
    else if s == SubMath || s == ICT then SubsidiaryBranch
    else if SimultaneousOf(s).Some? then SimultaneousBranch
    else Unclaimed
  }

  /** Because P.E, ICT, ENT and Islam are optional and every science and
      history subject is compulsory, four arms of the chain can never be
      reached and the subsidiary arm only ever sees SubMath. A subject's
      arm is decided by: compulsory, optional, General Paper in an upper
      class, SubMath, or nothing at all (General Paper below S5 and every
      name outside the catalogue). */
  lemma {:induction false} BranchClassification(s: Subject, level: Level)
    ensures BranchOf(s, level) == CompulsoryBranch <==> s in Compulsory
    ensures BranchOf(s, level) == OptionalBranch <==> s in Optional
    ensures BranchOf(s, level) == GeneralPaperBranch <==> s == GeneralPaper && IsUpper(level)
    ensures BranchOf(s, level) == SubsidiaryBranch <==> s == SubMath
    ensures BranchOf(s, level) !in {PEBranch, ScienceBranch, HistoryBranch, SimultaneousBranch}
    ensures BranchOf(s, level) == Unclaimed <==> s.Unlisted? || (s == GeneralPaper && !IsUpper(level))
  {
  }
}
