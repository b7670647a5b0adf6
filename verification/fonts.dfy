/** Start-up font selection (app.py:98-118) over the outcomes of the file
    probe and the two registration attempts. */
module Fonts {

  /** What start-up finds: whether the bundled font file exists, and whether
      registering the bundled font and the system font would succeed. */
  datatype FontProbe = FontProbe(customFilePresent: bool, customLoads: bool, systemLoads: bool)

  const CustomFont: string := "ComicSansCustom"
  const SystemFont: string := "DejaVuSans"
  const BuiltinFont: string := "Helvetica"

  /** The bundled font is used exactly when its file is there and loads; the
      system font exactly when there is no bundled file and the system font
      loads; the built-in font in every other case. In particular a bundled
      file that fails to load goes straight to the built-in font: the system
      font is only tried when there is no bundled file. */
  function SelectFont(p: FontProbe): (name: string)
    ensures name == CustomFont <==> p.customFilePresent && p.customLoads
    ensures name == SystemFont <==> !p.customFilePresent && p.systemLoads
    ensures name == BuiltinFont <==> (p.customFilePresent && !p.customLoads) || (!p.customFilePresent && !p.systemLoads)
  {
    if p.customFilePresent then
      if p.customLoads then CustomFont else BuiltinFont
    else if p.systemLoads then SystemFont else BuiltinFont
  }
}
