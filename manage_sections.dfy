/** src/pages/admin/ManageSections.jsx: the page and search filter over
    the section list and the page labels. */
module ManageSections {
  import opened Strings
  import opened Seqs
  import opened MultiLang
  import opened SectionService
  import opened SectionComponent

  /** The search test: the lower-cased title or content, in the current
      language with the English fallback, contains the lower-cased term. */
  predicate MatchesSearch(s: Section, term: string, lang: Locale) {
    Includes(ToLower(Title(s, lang)), ToLower(term))
    || Includes(ToLower(Content(s, lang)), ToLower(term))
  }

  /** `filterSections()`: the page filter unless it is 'all', then the
      search filter unless the term is empty. */
  function FilterSections(sections: seq<Section>, filterPage: string, searchTerm: string, lang: Locale): seq<Section> {
    var byPage := if filterPage != "all" then Filter(sections, (s: Section) => s.page == filterPage) else sections;
    if searchTerm != "" then Filter(byPage, (s: Section) => MatchesSearch(s, searchTerm, lang)) else byPage
  }

  /** A section is kept exactly when it is on the chosen page (any page
      for 'all') and matches the term (any section for an empty one); the
      kept sections keep their order. */
  lemma FilterSectionsMeaning(sections: seq<Section>, filterPage: string, searchTerm: string, lang: Locale)
    ensures var r := FilterSections(sections, filterPage, searchTerm, lang);
            IsSubseq(r, sections)
            && (forall x :: x in r <==>
                  x in sections
                  && (filterPage == "all" || x.page == filterPage)
                  && (searchTerm == "" || MatchesSearch(x, searchTerm, lang)))
  {
    var byPage := if filterPage != "all" then Filter(sections, (s: Section) => s.page == filterPage) else sections;
    if filterPage != "all" {
      FilterIsSubseq(sections, (s: Section) => s.page == filterPage);
    } else {
      SubseqRefl(sections);
    }
    if searchTerm != "" {
      FilterIsSubseq(byPage, (s: Section) => MatchesSearch(s, searchTerm, lang));
      SubseqTrans(Filter(byPage, (s: Section) => MatchesSearch(s, searchTerm, lang)), byPage, sections);
    }
  }

  /** With no page chosen and no term the list is shown whole. */
  lemma NoFilterShowsAll(sections: seq<Section>, lang: Locale)
    ensures FilterSections(sections, "all", "", lang) == sections
  {
  }

  lemma {:induction false} SubseqRefl<T>(s: seq<T>)
    ensures IsSubseq(s, s)
  {
    if s != [] {
      SubseqRefl(s[1..]);
    }
  }

  /** A subsequence of a subsequence is one. */
  lemma {:induction false} SubseqTrans<T>(a: seq<T>, b: seq<T>, c: seq<T>)
    requires IsSubseq(a, b) && IsSubseq(b, c)
    ensures IsSubseq(a, c)
    decreases |c|
  {
    if a != [] && c != [] {
      if b[0] == c[0] {
        if a[0] == b[0] {
          SubseqTrans(a[1..], b[1..], c[1..]);
        } else {
          SubseqTrans(a, b[1..], c[1..]);
        }
      } else {
        SubseqTrans(a, b, c[1..]);
        if a[0] == c[0] {
          DropHead(a, c[1..]);
        }
      }
    }
  }

  lemma {:induction false} DropHead<T>(a: seq<T>, s: seq<T>)
    requires a != [] && IsSubseq(a, s)
    ensures IsSubseq(a[1..], s)
    decreases |s|, 1
  {
    if a[0] == s[0] {
      Widen(a[1..], s);
    } else {
      DropHead(a, s[1..]);
      Widen(a[1..], s);
    }
  }

  lemma {:induction false} Widen<T>(x: seq<T>, s: seq<T>)
    requires s != [] && IsSubseq(x, s[1..])
    ensures IsSubseq(x, s)
    decreases |s|, 0
  {
    if x != [] && x[0] == s[0] {
      DropHead(x, s[1..]);
    }
  }

  // ---------------------------------------------------------------------
  // getPageLabel

  datatype PageOption = PageOption(value: string, caption: string)

  /** `pageOptions`: each label is the translation, else (except for
      'all') the English name. */
  function PageOptions(translate: string -> string): (r: seq<PageOption>)
    ensures |r| == 10 && r[0].value == "all"
  {
    [ PageOption("all", translate("common.all")),
      PageOption("talent-development", OrElse(translate("pages.talentDevelopment.title"), "Talent Development")),
      PageOption("community-engagement", OrElse(translate("pages.communityEngagement.title"), "Community Engagement")),
      PageOption("scientific-research", OrElse(translate("pages.scientificResearch.title"), "Scientific Research")),
      PageOption("arts-creativity", OrElse(translate("pages.artsCreativity.title"), "Arts & Creativity")),
      PageOption("job-opportunities", OrElse(translate("pages.jobOpportunities.title"), "Job Opportunities")),
      PageOption("activity-schedule", OrElse(translate("pages.activitySchedule.title"), "Activity Schedule")),
      PageOption("about", OrElse(translate("pages.about.title"), "About Us")),
      PageOption("contact", OrElse(translate("pages.contact.title"), "Contact Us")),
      PageOption("partners", OrElse(translate("pages.partners.title"), "Partners")) ]
  }

  /** `getPageLabel(page)`: the label of the first option with the value,
      else the page string itself. */
  function GetPageLabel(options: seq<PageOption>, page: string): string {
    if options == [] then page
    else if options[0].value == page then options[0].caption
    else GetPageLabel(options[1..], page)
  }

  /** A known page gets the label of its first option; an unknown one is
      shown as it is. */
  lemma {:induction false} GetPageLabelMeaning(options: seq<PageOption>, page: string)
    ensures (forall o :: o in options ==> o.value != page) ==> GetPageLabel(options, page) == page
    ensures forall i :: 0 <= i < |options| && options[i].value == page
                        && (forall j :: 0 <= j < i ==> options[j].value != page)
                        ==> GetPageLabel(options, page) == options[i].caption
  {
    if options != [] {
      GetPageLabelMeaning(options[1..], page);
      forall i | 0 <= i < |options| && options[i].value == page
                 && (forall j :: 0 <= j < i ==> options[j].value != page)
        ensures GetPageLabel(options, page) == options[i].caption
      {
        if i > 0 {
          assert options[1..][i - 1] == options[i];
          forall j | 0 <= j < i - 1 ensures options[1..][j].value != page {
            assert options[1..][j] == options[j + 1];
          }
        }
      }
      if forall o :: o in options ==> o.value != page {
        assert forall o :: o in options[1..] ==> o in options;
      }
    }
  }
}
