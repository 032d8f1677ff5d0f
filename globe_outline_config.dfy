/**
 * `useGlobeOutlineConfig`: the outline colour (a number for three.js) and
 * thickness of the globe, both taken from the current theme's controls.
 */
module GlobeOutlineConfig {
  import opened Types
  import opened ColorUtils

  /** The four outline controls. */
  datatype OutlineControls = OutlineControls(
    darkOutlineColor: string, darkOutlineThickness: real,
    lightOutlineColor: string, lightOutlineThickness: real)

  /** The hook's result. */
  datatype OutlineConfig = OutlineConfig(outlineColor: Num, outlineThickness: real)

  /** Both memoised selections; nothing but the theme and the four controls is read. */
  function OutlineFor(theme: Theme, controls: OutlineControls): (c: OutlineConfig)
    ensures theme == Dark ==> c.outlineThickness == controls.darkOutlineThickness
    ensures theme == Light ==> c.outlineThickness == controls.lightOutlineThickness
  {
    var colorHex := if theme == Dark then controls.darkOutlineColor else controls.lightOutlineColor;
    var thickness := if theme == Dark then controls.darkOutlineThickness else controls.lightOutlineThickness;
    OutlineConfig(HexToNumber(colorHex), thickness)
  }

  /** Colour and thickness always come from the same theme's pair of controls. */
  lemma SamePair(theme: Theme, controls: OutlineControls)
    ensures var c := OutlineFor(theme, controls);
      || (theme == Dark && c == OutlineConfig(HexToNumber(controls.darkOutlineColor), controls.darkOutlineThickness))
      || (theme == Light && c == OutlineConfig(HexToNumber(controls.lightOutlineColor), controls.lightOutlineThickness))
  {
  }

  /** Controls that agree on the selected theme's pair give the same outline. */
  lemma OnlySelectedPairRead(theme: Theme, a: OutlineControls, b: OutlineControls)
    requires theme == Dark ==> a.darkOutlineColor == b.darkOutlineColor && a.darkOutlineThickness == b.darkOutlineThickness
    requires theme == Light ==> a.lightOutlineColor == b.lightOutlineColor && a.lightOutlineThickness == b.lightOutlineThickness
    ensures OutlineFor(theme, a) == OutlineFor(theme, b)
  {
  }

  /** For a `#rrggbb` colour control, the outline colour is the packed 24-bit RGB value. */
  lemma OutlineColorPacked(theme: Theme, controls: OutlineControls, hex: string)
    requires hex == if theme == Dark then controls.darkOutlineColor else controls.lightOutlineColor
    requires IsHexColor(hex) && |hex| == 7
    ensures Red(hex).Int? && Green(hex).Int? && Blue(hex).Int?
    ensures OutlineFor(theme, controls).outlineColor == Int(Rgb24(Red(hex).value, Green(hex).value, Blue(hex).value))
  {
    HexToNumberOfHexColor(hex);
  }
}
