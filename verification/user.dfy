/** The User component: initials derived from the name, the choice between
    avatar image, fallback text and initials, the image's alt text and the
    optional description line. Case mapping is ASCII only. */
module User {
  import opened Wrappers
  import opened Strings

  // ---------------------------------------------------------------------------
  // Initials
  // ---------------------------------------------------------------------------

  /** `n[0]` joined as text: the first character, or nothing for an empty word
      (JavaScript's `undefined` joins as the empty string). */
  function FirstChar(w: string): string {
    if |w| == 0 then "" else [w[0]]
  }

  function FirstChars(ws: seq<string>): (r: seq<string>)
    ensures |r| == |ws|
    ensures forall i :: 0 <= i < |ws| ==> r[i] == FirstChar(ws[i])
  {
    seq(|ws|, i requires 0 <= i < |ws| => FirstChar(ws[i]))
  }

  /** The `initials` memo: split on spaces, first characters, joined,
      upper-cased, cut to two characters. */
  function Initials(name: string): (r: string)
    ensures |r| <= 2
  {
    var joined := Upper(Concat(FirstChars(Split(name, ' '))));
    joined[..if |joined| < 2 then |joined| else 2]
  }

  /** The words that are not empty, in order. */
  function NonEmptyWords(ws: seq<string>): (r: seq<string>)
    ensures forall i :: 0 <= i < |r| ==> r[i] != ""
  {
    if |ws| == 0 then []
    else if ws[0] == "" then NonEmptyWords(ws[1..])
    else [ws[0]] + NonEmptyWords(ws[1..])
  }

  /** Joining the first characters picks exactly the first character of each non-empty word. */
  lemma {:induction false} HeadsOfWords(ws: seq<string>)
    ensures |Concat(FirstChars(ws))| == |NonEmptyWords(ws)|
    ensures forall i :: 0 <= i < |NonEmptyWords(ws)| ==> Concat(FirstChars(ws))[i] == NonEmptyWords(ws)[i][0]
  {
    if |ws| > 0 {
      HeadsOfWords(ws[1..]);
      assert FirstChars(ws) == [FirstChar(ws[0])] + FirstChars(ws[1..]);
      assert ([FirstChar(ws[0])] + FirstChars(ws[1..]))[1..] == FirstChars(ws[1..]);
    }
  }

  /** The initials are the upper-cased first characters of the first two
      non-empty space-separated words, in order; empty words from repeated
      spaces contribute nothing. */
  lemma InitialsOfWords(name: string)
    ensures var words := NonEmptyWords(Split(name, ' '));
      && |Initials(name)| == (if |words| < 2 then |words| else 2)
      && forall i :: 0 <= i < |Initials(name)| ==> Initials(name)[i] == UpperChar(words[i][0])
  {
    HeadsOfWords(Split(name, ' '));
  }

  /** Leading spaces do not change the initials. */
  lemma {:induction false} LeadingSpaceIgnored(name: string)
    ensures Initials(" " + name) == Initials(name)
  {
    var s := " " + name;
    assert s[1..] == name;
    assert Split(s, ' ') == [""] + Split(name, ' ');
    assert ([""] + Split(name, ' '))[1..] == Split(name, ' ');
    InitialsOfWords(s);
    InitialsOfWords(name);
  }

  lemma JohnDoe()
    ensures Initials("John Doe") == "JD"
  {
    var words := Split("John Doe", ' ');
    assert "John Doe" == "John" + " " + "Doe";
    SplitJoin(["John", "Doe"], ' ');
    assert words == ["John", "Doe"];
    assert NonEmptyWords(words) == ["John", "Doe"] by {
      assert words[1..] == ["Doe"];
      assert words[1..][1..] == [];
    }
    InitialsOfWords("John Doe");
  }

  // ---------------------------------------------------------------------------
  // Avatar and description
  // ---------------------------------------------------------------------------

  /** The parts of `avatarProps` the component reads. */
  datatype AvatarProps = AvatarProps(src: Option<string>, alt: Option<string>)

  /** What the avatar circle shows. */
  datatype Avatar = Image(src: string, alt: string) | Text(text: string)

  /** The image's alt text. The `alt` attribute is written before
      `{...avatarProps}`, so a supplied alt, even an empty one, overrides the
      `alt || "<name>'s avatar"` default; the default stays only when no alt
      is supplied. */
  function ImageAlt(name: string, alt: Option<string>): (r: string)
    ensures alt.Some? ==> r == alt.value
    ensures alt.None? ==> r == name + "'s avatar"
  {
    var written := OrElse(alt, name + "'s avatar");
    match alt
    case Some(a) => a
    case None => written
  }

  /** The avatar circle: an image exactly when `avatarProps.src` is non-empty,
      and then neither fallback nor initials; otherwise the fallback text when
      it is non-empty, else the initials. */
  function AvatarView(name: string, avatarProps: Option<AvatarProps>, avatarFallback: Option<string>): (v: Avatar)
    ensures v.Image? <==> avatarProps.Some? && avatarProps.value.src.Some? && avatarProps.value.src.value != ""
    ensures v.Image? ==> v.src == avatarProps.value.src.value
    ensures v.Text? && avatarFallback.Some? && avatarFallback.value != "" ==> v.text == avatarFallback.value
    ensures v.Text? && (avatarFallback.None? || avatarFallback.value == "") ==> v.text == Initials(name)
  {
    if avatarProps.Some? && Truthy(avatarProps.value.src) then
      Image(avatarProps.value.src.value, ImageAlt(name, avatarProps.value.alt))
    else
      Text(OrElse(avatarFallback, Initials(name)))
  }

  /** The description line is rendered only for a non-empty description. */
  function DescriptionLine(description: Option<string>): (line: Option<string>)
    ensures line.Some? <==> description.Some? && description.value != ""
    ensures line.Some? ==> line.value == description.value
  {
    if Truthy(description) then description else None
  }
}
