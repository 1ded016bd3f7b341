/** src/components/common/Section.jsx: the text a section shows in the
    current language and how its media URL is rendered. */
module SectionComponent {
  import opened Wrappers
  import opened Strings
  import opened MultiLang
  import opened SectionService

  /** `section[`title_${lang}`]`. */
  function TitleField(s: Section, lang: Locale): string {
    match lang
    case Ar => s.titleAr
    case En => s.titleEn
    case Ku => s.titleKu
  }

  function ContentField(s: Section, lang: Locale): string {
    match lang
    case Ar => s.contentAr
    case En => s.contentEn
    case Ku => s.contentKu
  }

  /** `a || b || ''` over strings. */
  function OrElse(a: string, b: string): string {
    if a != "" then a else b
  }

  /** The title shown: the language's, else the English one, else "". */
  function Title(s: Section, lang: Locale): string {
    OrElse(TitleField(s, lang), s.titleEn)
  }

  function Content(s: Section, lang: Locale): string {
    OrElse(ContentField(s, lang), s.contentEn)
  }

  /** The requested language is used when filled, English otherwise, and
      the result is never anything but one of those two (possibly ""). */
  lemma TextFallback(s: Section, lang: Locale)
    ensures TitleField(s, lang) != "" ==> Title(s, lang) == TitleField(s, lang)
    ensures TitleField(s, lang) == "" ==> Title(s, lang) == s.titleEn
    ensures Title(s, lang) == "" <==> TitleField(s, lang) == "" && s.titleEn == ""
    ensures ContentField(s, lang) != "" ==> Content(s, lang) == ContentField(s, lang)
    ensures ContentField(s, lang) == "" ==> Content(s, lang) == s.contentEn
    ensures Content(s, lang) == "" <==> ContentField(s, lang) == "" && s.contentEn == ""
  {
  }

  /** `media && (...)`: a URL is a video when it names one of the hosts or
      ends in a video extension. */
  predicate IsVideo(media: Option<string>) {
    media.Some? && media.value != ""
    && (Includes(media.value, "youtube.com") || Includes(media.value, "youtu.be")
        || Includes(media.value, "vimeo.com")
        || EndsWith(media.value, ".mp4") || EndsWith(media.value, ".webm"))
  }

  predicate IsYouTube(url: string) {
    Includes(url, "youtube.com") || Includes(url, "youtu.be")
  }

  /** What is rendered for the media. */
  datatype MediaView =
    | NoMedia
    | YouTubeFrame(src: string)
    | VimeoFrame(src: string)
    | NativeVideo(src: string)
    | Image(src: string)

  /** The media branch of the component. */
  function MediaViewOf(media: Option<string>): MediaView {
    if media.None? || media.value == "" then NoMedia
    else if IsVideo(media) then
      if IsYouTube(media.value) then YouTubeFrame(ReplaceFirst(media.value, "watch?v=", "embed/"))
      else if Includes(media.value, "vimeo.com") then VimeoFrame(media.value)
      else NativeVideo(media.value)
    else Image(media.value)
  }

  /** Branch priority: no media renders nothing; YouTube wins over Vimeo,
      Vimeo over a plain video file; any other URL is an image. A Vimeo or
      native player gets the URL as stored. */
  lemma MediaViewChoice(media: Option<string>)
    ensures var v := MediaViewOf(media);
            (v.NoMedia? <==> media.None? || media.value == "")
            && (v.YouTubeFrame? <==> IsVideo(media) && IsYouTube(media.value))
            && (v.VimeoFrame? <==> IsVideo(media) && !IsYouTube(media.value) && Includes(media.value, "vimeo.com"))
            && (v.NativeVideo? <==> IsVideo(media) && !IsYouTube(media.value) && !Includes(media.value, "vimeo.com"))
            && (v.Image? <==> media.Some? && media.value != "" && !IsVideo(media))
            && (v.VimeoFrame? || v.NativeVideo? || v.Image? ==> v.src == media.value)
  {
  }

  /** A native player is only chosen for a URL ending in .mp4 or .webm. */
  lemma NativeVideoHasExtension(media: Option<string>)
    requires MediaViewOf(media).NativeVideo?
    ensures EndsWith(media.value, ".mp4") || EndsWith(media.value, ".webm")
  {
  }

  /** The YouTube frame's source is the URL with its first "watch?v="
      turned into "embed/", or the URL itself when it has none. */
  lemma YouTubeSource(url: string)
    requires MediaViewOf(Some(url)).YouTubeFrame?
    ensures !Includes(url, "watch?v=") ==> MediaViewOf(Some(url)).src == url
    ensures Includes(url, "watch?v=") ==>
              exists i: nat ::
                && OccursAt(url, "watch?v=", i)
                && (forall j: nat :: j < i ==> !OccursAt(url, "watch?v=", j))
                && MediaViewOf(Some(url)).src == url[..i] + "embed/" + url[i + 8..]
  {
    if Includes(url, "watch?v=") {
      ReplaceFirstPresent(url, "watch?v=", "embed/");
    } else {
      ReplaceFirstAbsent(url, "watch?v=", "embed/");
    }
  }
}
