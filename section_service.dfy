/** src/services/sectionService.js: the page sections kept in a
    module-level array, read sorted by `order` and changed by push,
    index assignment and splice. */
module SectionService {
  import opened Wrappers
  import opened Seqs
  import opened Sorting

  /** A section: its page slug, a title and content per locale, an
      optional media URL and its position on the page. */
  datatype Section = Section(id: int, page: string,
                             titleEn: string, titleAr: string, titleKu: string,
                             contentEn: string, contentAr: string, contentKu: string,
                             media: Option<string>, order: int)

  function SectionId(s: Section): int { s.id }
  function SectionOrder(s: Section): int { s.order }

  // The seed texts.
  const TitleEn1 := "Empowering Future Leaders"
  const TitleAr1 := "تمكين قادة المستقبل"
  const TitleKu1 := "بەهێزکردنی سەرکردەکانی داهاتوو"
  const ContentEn1 := "Our talent development programs are designed to nurture the next generation of leaders. We provide comprehensive training, mentorship, and hands-on experience to help individuals unlock their full potential."
  const ContentAr1 := "تم تصميم برامج تطوير المواهب لدينا لرعاية الجيل القادم من القادة. نحن نقدم التدريب الشامل والإرشاد والخبرة العملية لمساعدة الأفراد على إطلاق العنان لإمكاناتهم الكاملة."
  const ContentKu1 := "بەرنامەکانی گەشەپێدانی بەهرەمان بۆ پەروەردەکردنی نەوەی داهاتووی سەرکردەکان داڕێژراوە. ڕاهێنانی گشتگیر و ڕێنمایی و ئەزموونی عەمەلی پێشکەش دەکەین بۆ یارمەتیدانی تاکەکان بۆ بەرپاکردنی تەواوی تواناکانیان."
  const TitleEn2 := "Professional Development Workshops"
  const TitleAr2 := "ورش التطوير المهني"
  const TitleKu2 := "وۆرکشۆپی گەشەپێدانی پیشەیی"
  const ContentEn2 := "We offer regular workshops covering essential skills including leadership, communication, project management, and technical expertise. Our experienced facilitators ensure practical, applicable learning experiences."
  const ContentAr2 := "نحن نقدم ورش عمل منتظمة تغطي المهارات الأساسية بما في ذلك القيادة والتواصل وإدارة المشاريع والخبرة الفنية. يضمن ميسرونا ذوو الخبرة تجارب تعليمية عملية وقابلة للتطبيق."
  const ContentKu2 := "وۆرکشۆپی بەردەوام پێشکەش دەکەین کە شارەزایی گرنگ دەگرێتەوە لەوانە سەرکردایەتی، پەیوەندیکردن، بەڕێوەبردنی پرۆژە، و شارەزایی تەکنیکی. ئاسانکارە شارەزاکانمان دڵنیایی لە ئەزموونی فێربوونی عەمەلی و بەکارهێنراو دەکەن."
  const TitleEn3 := "Building Stronger Communities"
  const TitleAr3 := "بناء مجتمعات أقوى"
  const TitleKu3 := "بنیاتنانی کۆمەڵگەی بەهێزتر"
  const ContentEn3 := "Community engagement is at the heart of what we do. We believe in creating meaningful connections and fostering collaboration among community members to address local challenges and celebrate achievements."
  const ContentAr3 := "المشاركة المجتمعية هي في صميم ما نقوم به. نحن نؤمن بإنشاء روابط ذات مغزى وتعزيز التعاون بين أفراد المجتمع لمواجهة التحديات المحلية والاحتفال بالإنجازات."
  const ContentKu3 := "بەشداریکردنی کۆمەڵگە لە ناوەڕاستی ئەوەدایە کە ئێمە دەیکەین. باوەڕمان بە دروستکردنی پەیوەندییەکی واتاداری و پەرەپێدانی هاوکاری لە نێوان ئەندامانی کۆمەڵگە هەیە بۆ ڕووبەڕووبوونەوەی تەحەدایەکانی ناوخۆیی و ئاهەنگگێڕانی دەسکەوتەکان."
  const TitleEn4 := "Advancing Knowledge Through Research"
  const TitleAr4 := "تقدم المعرفة من خلال البحث"
  const TitleKu4 := "پێشخستنی زانیاری لە ڕێگەی لێکۆڵینەوە"
  const ContentEn4 := "Our research initiatives focus on innovative solutions to contemporary challenges. We support multidisciplinary research projects that have real-world impact and contribute to scientific advancement."
  const ContentAr4 := "تركز مبادراتنا البحثية على الحلول المبتكرة للتحديات المعاصرة. نحن ندعم مشاريع البحث متعددة التخصصات التي لها تأثير في العالم الحقيقي وتساهم في التقدم العلمي."
  const ContentKu4 := "دەستپێشخەریەکانی لێکۆڵینەوەمان سەرنج دەدەنە سەر چارەسەری داهێنەرانە بۆ تەحەدایەکانی سەردەم. پشتگیری لە پرۆژەی لێکۆڵینەوەی فرە بوارەکان دەکەین کە کاریگەرییان لەسەر جیهانی ڕاستەقینە هەیە و بەشداری لە پێشکەوتنی زانستیدا دەکەن."
  const TitleEn5 := "Celebrating Creative Expression"
  const TitleAr5 := "احتفال بالتعبير الإبداعي"
  const TitleKu5 := "ئاهەنگگێڕانی دەربڕینی داهێنەرانە"
  const ContentEn5 := "Arts and creativity are essential to human expression and cultural identity. We provide platforms for artists to showcase their work, collaborate, and inspire others through various artistic mediums."
  const ContentAr5 := "الفنون والإبداع ضروريان للتعبير الإنساني والهوية الثقافية. نحن نوفر منصات للفنانين لعرض أعمالهم والتعاون وإلهام الآخرين من خلال وسائط فنية مختلفة."
  const ContentKu5 := "هونەر و داهێنان بۆ دەربڕینی مرۆیی و ناسنامەی کلتووری پێویستن. سەکۆ بۆ هونەرمەندان دابین دەکەین بۆ پیشاندانی کارەکانیان و هاوکاریکردن و ئیلهامبەخشین بە خەڵکانی دیکە لە ڕێگەی مێدیای هونەری جیاوازەوە."
  const TitleEn6 := "Career Opportunities"
  const TitleAr6 := "فرص العمل"
  const TitleKu6 := "دەرفەتی کار"
  const ContentEn6 := "We are always looking for talented individuals to join our team. Explore current openings and discover how you can contribute to our mission while growing your career."
  const ContentAr6 := "نحن دائما نبحث عن أفراد موهوبين للانضمام إلى فريقنا. استكشف الفرص الحالية واكتشف كيف يمكنك المساهمة في مهمتنا أثناء تطوير حياتك المهنية."
  const ContentKu6 := "هەمیشە بەدوای تاکە بەهرەداراندا دەگەڕێین بۆ پێکهاتنی تیمەکەمان. دەرفەتە ئێستاکان بگەڕێ و بزانە چۆن دەتوانیت بەشداری لە ئامانجەکانماندا بکەیت لە هەمان کاتدا کارەکەت پەرەپێ بدەیت."
  const TitleEn7 := "Leadership Workshop"
  const TitleAr7 := "ورشة عمل القيادة"
  const TitleKu7 := "وۆرکشۆپی سەرکردایەتی"
  const ContentEn7 := "2024-12-15\n10:00 AM - 2:00 PM\nMain Conference Hall"
  const ContentAr7 := "2024-12-15\n10:00 صباحاً - 2:00 مساءً\nقاعة المؤتمرات الرئيسية"
  const ContentKu7 := "2024-12-15\n10:00 پێش نیوەڕۆ - 2:00 پاش نیوەڕۆ\nهۆڵی کۆنفرانسی سەرەکی"
  const TitleEn8 := "Community Art Exhibition"
  const TitleAr8 := "معرض الفنون المجتمعية"
  const TitleKu8 := "پێشانگەی هونەری کۆمەڵگە"
  const ContentEn8 := "2024-12-20\n9:00 AM - 5:00 PM\nArt Gallery, Building A"
  const ContentAr8 := "2024-12-20\n9:00 صباحاً - 5:00 مساءً\nمعرض الفنون، المبنى أ"
  const ContentKu8 := "2024-12-20\n9:00 پێش نیوەڕۆ - 5:00 پاش نیوەڕۆ\nگالێری هونەری، بینای A"
  const TitleEn9 := "Our Mission"
  const TitleAr9 := "مهمتنا"
  const TitleKu9 := "ئامانجەکانمان"
  const ContentEn9 := "We are dedicated to fostering growth, innovation, and collaboration. Our organization brings together diverse talents and perspectives to create positive change in our communities."
  const ContentAr9 := "نحن ملتزمون بتعزيز النمو والابتكار والتعاون. تجمع منظمتنا مواهب ووجهات نظر متنوعة لخلق تغيير إيجابي في مجتمعاتنا."
  const ContentKu9 := "ئێمە خۆمان تەرخان کردووە بۆ پەرەپێدانی گەشە و داهێنان و هاوکاری. ڕێکخراوەکەمان بەهرەی جیاواز و دیدگای جیاواز کۆدەکاتەوە بۆ دروستکردنی گۆڕانکاری ئەرێنی لە کۆمەڵگەکانماندا."
  const TitleEn10 := "Strategic Partnerships"
  const TitleAr10 := "الشراكات الاستراتيجية"
  const TitleKu10 := "هاوبەشی ستراتیژی"
  const ContentEn10 := "We collaborate with leading organizations worldwide to amplify our impact. Our partners share our commitment to excellence and social responsibility."
  const ContentAr10 := "نتعاون مع المنظمات الرائدة في جميع أنحاء العالم لتضخيم تأثيرنا. يشاركنا شركاؤنا التزامنا بالتميز والمسؤولية الاجتماعية."
  const ContentKu10 := "هاوکاری لەگەڵ ڕێکخراوە پێشەنگەکانی جیهاندا دەکەین بۆ زیادکردنی کاریگەرییەکەمان. هاوبەشەکانمان پابەندبوونمان بە باشی و بەرپرسیارێتی کۆمەڵایەتی هاوبەش دەکەن."

  /** The ten sections the module starts with. */
  const SeedSections: seq<Section> :=
    [
      Section(1, "talent-development", TitleEn1, TitleAr1, TitleKu1, ContentEn1, ContentAr1, ContentKu1, Some("https://images.unsplash.com/photo-1522071820081-009f0129c71c?w=800"), 1),
      Section(2, "talent-development", TitleEn2, TitleAr2, TitleKu2, ContentEn2, ContentAr2, ContentKu2, Some("https://images.unsplash.com/photo-1552664730-d307ca884978?w=800"), 2),
      Section(3, "community-engagement", TitleEn3, TitleAr3, TitleKu3, ContentEn3, ContentAr3, ContentKu3, Some("https://images.unsplash.com/photo-1559027615-cd4628902d4a?w=800"), 1),
      Section(4, "scientific-research", TitleEn4, TitleAr4, TitleKu4, ContentEn4, ContentAr4, ContentKu4, Some("https://images.unsplash.com/photo-1532094349884-543bc11b234d?w=800"), 1),
      Section(5, "arts-creativity", TitleEn5, TitleAr5, TitleKu5, ContentEn5, ContentAr5, ContentKu5, Some("https://images.unsplash.com/photo-1460661419201-fd4cecdf8a8b?w=800"), 1),
      Section(6, "job-opportunities", TitleEn6, TitleAr6, TitleKu6, ContentEn6, ContentAr6, ContentKu6, Some("https://images.unsplash.com/photo-1486312338219-ce68d2c6f44d?w=800"), 1),
      Section(7, "activity-schedule", TitleEn7, TitleAr7, TitleKu7, ContentEn7, ContentAr7, ContentKu7, None, 1),
      Section(8, "activity-schedule", TitleEn8, TitleAr8, TitleKu8, ContentEn8, ContentAr8, ContentKu8, None, 2),
      Section(9, "about", TitleEn9, TitleAr9, TitleKu9, ContentEn9, ContentAr9, ContentKu9, Some("https://images.unsplash.com/photo-1522071820081-009f0129c71c?w=800"), 1),
      Section(10, "partners", TitleEn10, TitleAr10, TitleKu10, ContentEn10, ContentAr10, ContentKu10, Some("https://images.unsplash.com/photo-1542744173-8e7e53415bb0?w=800"), 1)
    ]

  /** The seed ids are 1..10, so no id occurs twice. */
  lemma SeedIdsUnique()
    ensures |SeedSections| == 10
    ensures forall i :: 0 <= i < |SeedSections| ==> SeedSections[i].id == i + 1
    ensures DistinctBy(SeedSections, SectionId)
  {
    assert |SeedSections| == 10;
    assert SeedSections[0].id == 1 && SeedSections[1].id == 2 && SeedSections[2].id == 3
        && SeedSections[3].id == 4 && SeedSections[4].id == 5 && SeedSections[5].id == 6
        && SeedSections[6].id == 7 && SeedSections[7].id == 8 && SeedSections[8].id == 9
        && SeedSections[9].id == 10;
  }

  /** The fields a `sectionData` of an update may carry. */
  datatype SectionPatch = SectionPatch(
    page: Option<string>, titleEn: Option<string>, titleAr: Option<string>, titleKu: Option<string>,
    contentEn: Option<string>, contentAr: Option<string>, contentKu: Option<string>,
    media: Option<Option<string>>, order: Option<int>)

  function Override<T>(field: T, patch: Option<T>): T {
    if patch.Some? then patch.value else field
  }

  /** `{ ...sections[index], ...sectionData }`. */
  function MergeSection(s: Section, p: SectionPatch): Section {
    Section(s.id, Override(s.page, p.page),
            Override(s.titleEn, p.titleEn), Override(s.titleAr, p.titleAr), Override(s.titleKu, p.titleKu),
            Override(s.contentEn, p.contentEn), Override(s.contentAr, p.contentAr), Override(s.contentKu, p.contentKu),
            Override(s.media, p.media), Override(s.order, p.order))
  }

  /** A merge keeps the id, takes every field the patch carries and keeps
      every other one; the empty patch changes nothing. */
  lemma MergeSectionFields(s: Section, p: SectionPatch)
    ensures var m := MergeSection(s, p);
            m.id == s.id
            && (p.page.Some? ==> m.page == p.page.value) && (p.page.None? ==> m.page == s.page)
            && (p.titleEn.Some? ==> m.titleEn == p.titleEn.value) && (p.titleEn.None? ==> m.titleEn == s.titleEn)
            && (p.titleAr.Some? ==> m.titleAr == p.titleAr.value) && (p.titleAr.None? ==> m.titleAr == s.titleAr)
            && (p.titleKu.Some? ==> m.titleKu == p.titleKu.value) && (p.titleKu.None? ==> m.titleKu == s.titleKu)
            && (p.contentEn.Some? ==> m.contentEn == p.contentEn.value) && (p.contentEn.None? ==> m.contentEn == s.contentEn)
            && (p.contentAr.Some? ==> m.contentAr == p.contentAr.value) && (p.contentAr.None? ==> m.contentAr == s.contentAr)
            && (p.contentKu.Some? ==> m.contentKu == p.contentKu.value) && (p.contentKu.None? ==> m.contentKu == s.contentKu)
            && (p.media.Some? ==> m.media == p.media.value) && (p.media.None? ==> m.media == s.media)
            && (p.order.Some? ==> m.order == p.order.value) && (p.order.None? ==> m.order == s.order)
    ensures MergeSection(s, SectionPatch(None, None, None, None, None, None, None, None, None)) == s
  {
  }

  /** `sections.filter(s => s.page === page)`. */
  function OnPage(sections: seq<Section>, page: string): (r: seq<Section>)
    ensures forall x :: x in r <==> x in sections && x.page == page
  {
    Filter(sections, (s: Section) => s.page == page)
  }

  class SectionStore {
    var sections: seq<Section>

    /** No id occurs twice: true of the seed and kept by every change. */
    ghost predicate Valid()
      reads this
    {
      DistinctBy(sections, SectionId)
    }

    constructor ()
      ensures sections == SeedSections
      ensures Valid()
    {
      SeedIdsUnique();
      sections := SeedSections;
    }

    /** `getAllSections()`: a copy sorted by `order`. */
    function GetAllSections(): (r: seq<Section>)
      reads this
      ensures multiset(r) == multiset(sections)
      ensures forall i, j :: 0 <= i < j < |r| ==> r[i].order <= r[j].order
    {
      var r := SortBy(sections, SectionOrder);
      assert SortedBy(r, SectionOrder);
      r
    }

    /** `getSectionsByPage(page)`: that page's sections sorted by `order`. */
    function GetSectionsByPage(page: string): (r: seq<Section>)
      reads this
      ensures forall x :: x in r <==> x in sections && x.page == page
      ensures multiset(r) == multiset(OnPage(sections, page))
      ensures forall i, j :: 0 <= i < j < |r| ==> r[i].order <= r[j].order
    {
      var r := SortBy(OnPage(sections, page), SectionOrder);
      assert SortedBy(r, SectionOrder);
      assert forall x :: x in r <==> x in multiset(r);
      r
    }

    /** `getSectionById(id)`: the first section with the id. */
    function GetSectionById(id: int): (r: Result<Section>)
      reads this
      ensures r.Failure? <==> forall x :: x in sections ==> x.id != id
      ensures r.Failure? ==> r.error == "Section not found"
      ensures r.Success? ==> exists i :: 0 <= i < |sections| && sections[i] == r.value && r.value.id == id
                                        && forall j :: 0 <= j < i ==> sections[j].id != id
    {
      match IndexOfKey(sections, SectionId, id)
      case None =>
        assert forall x :: x in sections ==> x.id != id by {
          forall x | x in sections ensures x.id != id {
            var m :| 0 <= m < |sections| && sections[m] == x;
            assert SectionId(sections[m]) != id;
          }
        }
        Failure("Section not found")
      case Some(i) =>
        Success(sections[i])
    }

    /** `createSection(sectionData)`: the data with id `max(ids, 0) + 1`,
        appended. */
    method CreateSection(data: Section) returns (s: Section)
      requires Valid()
      modifies this
      ensures Valid()
      ensures s == data.(id := MaxKeyOr0(old(sections), SectionId) + 1)
      ensures sections == old(sections) + [s]
      ensures forall x :: x in old(sections) ==> x.id < s.id
    {
      var next := MaxKeyOr0(sections, SectionId) + 1;
      s := data.(id := next);
      AppendFresh(sections, s, SectionId, next);
      sections := sections + [s];
    }

    /** `updateSection(id, sectionData)`: merge into the first section with
        the id. */
    method UpdateSection(id: int, patch: SectionPatch) returns (r: Result<Section>)
      requires Valid()
      modifies this
      ensures Valid()
      ensures IndexOfKey(old(sections), SectionId, id).None? ==>
                r == Failure("Section not found") && sections == old(sections)
      ensures IndexOfKey(old(sections), SectionId, id).Some? ==>
                var i := IndexOfKey(old(sections), SectionId, id).value;
                r == Success(MergeSection(old(sections[i]), patch))
                && sections == old(sections)[i := r.value]
    {
      var index := IndexOfKey(sections, SectionId, id);
      if index.None? {
        return Failure("Section not found");
      }
      var i := index.value;
      var merged := MergeSection(sections[i], patch);
      ReplaceKeepsTable(sections, i, merged, SectionId, MaxKeyOr0(sections, SectionId) + 1);
      sections := sections[i := merged];
      return Success(merged);
    }

    /** `deleteSection(id)`: splice out the first section with the id. */
    method DeleteSection(id: int) returns (r: Result<string>)
      requires Valid()
      modifies this
      ensures Valid()
      ensures IndexOfKey(old(sections), SectionId, id).None? ==>
                r == Failure("Section not found") && sections == old(sections)
      ensures IndexOfKey(old(sections), SectionId, id).Some? ==>
                r == Success("Section deleted successfully")
                && sections == RemoveAt(old(sections), IndexOfKey(old(sections), SectionId, id).value)
      ensures r.Success? ==> forall x :: x in sections ==> x.id != id
    {
      var index := IndexOfKey(sections, SectionId, id);
      if index.None? {
        return Failure("Section not found");
      }
      RemoveAtKeepsTable(sections, index.value, SectionId, MaxKeyOr0(sections, SectionId) + 1);
      sections := RemoveAt(sections, index.value);
      return Success("Section deleted successfully");
    }
  }

  /** Sections with equal `order` keep their store order in both getters. */
  lemma GettersAreStable(store: SectionStore, page: string, k: int)
    ensures KeyRun(store.GetAllSections(), SectionOrder, k) == KeyRun(store.sections, SectionOrder, k)
    ensures KeyRun(store.GetSectionsByPage(page), SectionOrder, k) == KeyRun(OnPage(store.sections, page), SectionOrder, k)
  {
    SortByStable(store.sections, SectionOrder, k);
    SortByStable(OnPage(store.sections, page), SectionOrder, k);
  }

  /** The lookup succeeds exactly on the ids a section carries. */
  lemma GetSectionByIdIff(store: SectionStore, id: int)
    ensures store.GetSectionById(id).Success? <==> id in KeySet(store.sections, SectionId)
  {
  }
}
