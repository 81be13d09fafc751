/** What one overlay box derives from the editor state: its background colour
    string, the text style it falls back to, and which controls it shows. */
module OverlayBox {
  import opened Wrappers
  import opened Entities
  import opened EditorState
  import opened Text
  import EditorReducer

  /** A colour the box can parse: at least seven characters, the six after the
      leading `#` being hex digits. */
  predicate WellFormedHex(hex: string) {
    |hex| >= 7 && forall i :: 1 <= i < 7 ==> IsHexDigit(hex[i])
  }

  /** The red, green and blue channels read from characters 1-2, 3-4 and 5-6. */
  function Channels(hex: string): (c: (nat, nat, nat))
    requires WellFormedHex(hex)
    ensures c.0 < 256 && c.1 < 256 && c.2 < 256
  {
    (HexByte(hex[1..3]), HexByte(hex[3..5]), HexByte(hex[5..7]))
  }

  const Sep: string := ", "

  /** The "rgba(R, G, B, A)" template. */
  function RenderRgba(red: nat, green: nat, blue: nat, alpha: string): (r: string)
    ensures |r| > 6 && r[..5] == "rgba(" && r[|r| - 1] == ')'
  {
    "rgba(" + Decimal(red) + Sep + Decimal(green) + Sep + Decimal(blue) + Sep + alpha + ")"
  }

  /** `hexToRgba`; the alpha arrives already rendered as text. */
  function HexToRgba(hex: string, alpha: string): (r: string)
    requires WellFormedHex(hex)
    ensures |r| > 6 && r[..5] == "rgba(" && r[|r| - 1] == ')'
  {
    var (red, green, blue) := Channels(hex);
    RenderRgba(red, green, blue, alpha)
  }

  /** Reads an "rgba(R, G, B, A)" string back into its channels and alpha text. */
  function ParseRgba(s: string): Option<(nat, nat, nat, string)> {
    if |s| < 6 || s[..5] != "rgba(" || s[|s| - 1] != ')' then None
    else ParseRgbaBody(SplitOn(s[5..|s| - 1], ','))
  }

  function ParseRgbaBody(parts: seq<string>): Option<(nat, nat, nat, string)> {
    if |parts| != 4 then None
    else if !AllDigits(parts[0]) then None
    else if |parts[1]| < 1 || parts[1][0] != ' ' || !AllDigits(parts[1][1..]) then None
    else if |parts[2]| < 1 || parts[2][0] != ' ' || !AllDigits(parts[2][1..]) then None
    else if |parts[3]| < 1 || parts[3][0] != ' ' then None
    else Some((ParseDecimal(parts[0]), ParseDecimal(parts[1][1..]), ParseDecimal(parts[2][1..]), parts[3][1..]))
  }

  lemma SpacedHasNo(a: string)
    requires ',' !in a
    ensures ',' !in " " + a
  {
    assert forall i :: 1 <= i < |" " + a| ==> (" " + a)[i] == a[i - 1];
  }

  /** Four comma-free pieces joined by commas split back into themselves. */
  lemma SplitFour(a: string, b: string, c: string, d: string)
    requires ',' !in a && ',' !in b && ',' !in c && ',' !in d
    ensures SplitOn(a + [','] + (b + [','] + (c + [','] + d)), ',') == [a, b, c, d]
  {
    SplitAfterPiece(a, ',', b + [','] + (c + [','] + d));
    SplitAfterPiece(b, ',', c + [','] + d);
    SplitAfterPiece(c, ',', d);
    SplitWithoutSep(d, ',');
  }

  /** The template's inside splits at its three commas. */
  lemma SplitTemplate(d1: string, d2: string, d3: string, alpha: string)
    requires AllDigits(d1) && AllDigits(d2) && AllDigits(d3) && ',' !in alpha
    ensures SplitOn(d1 + Sep + d2 + Sep + d3 + Sep + alpha, ',') == [d1, " " + d2, " " + d3, " " + alpha]
  {
    DigitsHaveNo(d1, ',');
    DigitsHaveNo(d2, ',');
    DigitsHaveNo(d3, ',');
    SpacedHasNo(d2);
    SpacedHasNo(d3);
    SpacedHasNo(alpha);
    assert d1 + Sep + d2 + Sep + d3 + Sep + alpha
        == d1 + [','] + ((" " + d2) + [','] + ((" " + d3) + [','] + (" " + alpha)));
    SplitFour(d1, " " + d2, " " + d3, " " + alpha);
  }

  /** A rendered colour reads back as its three channels and its alpha. */
  lemma RenderParse(red: nat, green: nat, blue: nat, alpha: string)
    requires ',' !in alpha
    ensures ParseRgba(RenderRgba(red, green, blue, alpha)) == Some((red, green, blue, alpha))
  {
    var d1, d2, d3 := Decimal(red), Decimal(green), Decimal(blue);
    var s := RenderRgba(red, green, blue, alpha);
    var body := d1 + Sep + d2 + Sep + d3 + Sep + alpha;
    assert s == "rgba(" + body + ")";
    assert s[5..|s| - 1] == body;
    SplitTemplate(d1, d2, d3, alpha);
    var parts := [d1, " " + d2, " " + d3, " " + alpha];
    assert parts[1][1..] == d2 && parts[2][1..] == d3 && parts[3][1..] == alpha;
    DecimalRoundTrip(red);
    DecimalRoundTrip(green);
    DecimalRoundTrip(blue);
  }

  /** The rendered string carries exactly the three parsed channels and the
      alpha, in that order and with ", " separators. */
  lemma RgbaRoundTrip(hex: string, alpha: string)
    requires WellFormedHex(hex) && ',' !in alpha
    ensures ParseRgba(HexToRgba(hex, alpha)) == Some((Channels(hex).0, Channels(hex).1, Channels(hex).2, alpha))
  {
    RenderParse(Channels(hex).0, Channels(hex).1, Channels(hex).2, alpha);
  }

  /** A colour written as "#rrggbb" comes back with the same channels. */
  lemma HexChannelsRoundTrip(red: nat, green: nat, blue: nat)
    requires red < 256 && green < 256 && blue < 256
    ensures var hex := "#" + ToHex2(red) + ToHex2(green) + ToHex2(blue);
            WellFormedHex(hex) && Channels(hex) == (red, green, blue)
  {
    var hex := "#" + ToHex2(red) + ToHex2(green) + ToHex2(blue);
    assert hex[1..3] == ToHex2(red) && hex[3..5] == ToHex2(green) && hex[5..7] == ToHex2(blue);
    HexByteRoundTrip(red);
    HexByteRoundTrip(green);
    HexByteRoundTrip(blue);
  }

  /** White and black, the two default colours. */
  lemma DefaultColourChannels()
    ensures WellFormedHex("#ffffff") && Channels("#ffffff") == (255, 255, 255)
    ensures WellFormedHex("#000000") && Channels("#000000") == (0, 0, 0)
    ensures HexToRgba("#000000", "0.4") == "rgba(0, 0, 0, 0.4)"
  {
    assert "#ffffff"[1..3] == "ff" && "#ffffff"[3..5] == "ff" && "#ffffff"[5..7] == "ff";
    assert "#000000"[1..3] == "00" && "#000000"[3..5] == "00" && "#000000"[5..7] == "00";
  }

  /** The style the box draws with: the overlay's own, else per-field
      defaults black background at 0.4, white 16 px text. */
  datatype BoxStyle = BoxStyle(backgroundColor: string, backgroundOpacity: real, fontSize: real, color: string)

  function StyleOf(o: Overlay): (b: BoxStyle)
    ensures o.textStyle.Some? ==>
              b == BoxStyle(o.textStyle.value.backgroundColor, o.textStyle.value.backgroundOpacity,
                            o.textStyle.value.fontSize, o.textStyle.value.color)
    ensures o.textStyle.None? ==> b == BoxStyle("#000000", 0.4, 16.0, "#ffffff")
  {
    match o.textStyle
    case None => BoxStyle("#000000", 0.4, 16.0, "#ffffff")
    case Some(t) => BoxStyle(t.backgroundColor, t.backgroundOpacity, t.fontSize, t.color)
  }

  /** The box's fallbacks are the reducer's: an overlay drawn before any style
      edit looks the same as after an edit that sets nothing. */
  lemma BoxDefaultsMatchReducer(o: Overlay)
    requires o.textStyle.None?
    ensures var t := EditorReducer.MergeStyle(None, StylePatch(None, None, None, None));
            StyleOf(o) == StyleOf(o.(textStyle := Some(t)))
  {
  }

  /** The text shown: the overlay's text unless it is absent or empty. */
  function DisplayText(o: Overlay): (r: string)
    ensures o.text.Some? && o.text.value != "" ==> r == o.text.value
    ensures (o.text.None? || o.text.value == "") ==> r == "Type here"
    ensures r != ""
  {
    if o.text.Some? && o.text.value != "" then o.text.value else "Type here"
  }

  /** The text style controls show only while this overlay is being edited. */
  predicate ShowsTextControls(s: EditorState, o: Overlay): (b: bool)
    ensures b && SelectionConsistent(s) ==> ShowsResizeHandle(s, o)
  {
    s.editingOverlayId == Some(o.id)
  }

  /** The resize handle shows only on the selected overlay. */
  predicate ShowsResizeHandle(s: EditorState, o: Overlay): (b: bool)
    ensures SelectionConsistent(s) && s.editingOverlayId == Some(o.id) ==> b
  {
    s.selectedOverlayId == Some(o.id)
  }

  /** In a consistent state an edited overlay also shows its resize handle;
      starting an edit shows both on that overlay, selecting shows only the
      handle, and deselecting hides both everywhere. */
  lemma ControlsFollowSelection(s: EditorState, o: Overlay, id: string)
    ensures SelectionConsistent(s) && ShowsTextControls(s, o) ==> ShowsResizeHandle(s, o)
    ensures var r := EditorReducer.Reduce(s, StartEditText(id));
            ShowsTextControls(r, o) <==> o.id == id
    ensures var r := EditorReducer.Reduce(s, StartEditText(id));
            ShowsResizeHandle(r, o) <==> o.id == id
    ensures var r := EditorReducer.Reduce(s, SelectOverlay(id));
            !ShowsTextControls(r, o) && (ShowsResizeHandle(r, o) <==> o.id == id)
    ensures var r := EditorReducer.Reduce(s, DeselectOverlay);
            !ShowsTextControls(r, o) && !ShowsResizeHandle(r, o)
  {
  }
}
