/**
 * The console side of the plugin: its settings, the colour mode the console
 * shows, and the effect that dresses the page body with the active theme's
 * wallpaper and keeps a single sticker element showing the theme's sticker.
 */
module Client {
  import opened Wrappers
  import ThemeTransform
  import opened ThemeModule

  // ---------------------------------------------------------------------------
  // Settings

  datatype DokiConfig = DokiConfig(
    useWallpaper: bool,
    useSecondaryWallpaper: bool,
    wallpaperOpacity: real,
    useSticker: bool,
    useSecondarySticker: bool,
    stickerOpacity: real,
    stickerXOffset: real,
    stickerYOffset: real)

  /** The settings the schema gives when nothing is stored. */
  const DefaultConfig: DokiConfig := DokiConfig(true, false, 0.9, true, false, 0.5, 0.0, 0.0)

  /**
   * The ranges of the numeric settings. The wallpaper settings belong to the
   * branch of the schema that applies while the wallpaper is used, the
   * sticker settings to the one that applies while the sticker is used.
   */
  predicate InBounds(c: DokiConfig) {
    && (c.useWallpaper ==> 0.3 <= c.wallpaperOpacity <= 1.0)
    && (c.useSticker ==> && 0.0 <= c.stickerOpacity <= 1.0
                         && 0.0 <= c.stickerXOffset <= 100.0
                         && 0.0 <= c.stickerYOffset <= 100.0)
  }

  /** `config.value.dokiTheme ||= DokiThemeConfig()`: stored settings are kept, missing ones become the defaults. */
  function ConfigOnReady(stored: Option<DokiConfig>): (c: DokiConfig)
    ensures stored.Some? ==> c == stored.value
    ensures stored.None? ==> c == DefaultConfig && InBounds(c)
  {
    stored.GetOr(DefaultConfig)
  }

  // ---------------------------------------------------------------------------
  // Colour mode and the active theme

  datatype ColorMode = Dark | Light
  datatype ModeSetting = Auto | Fixed(mode: ColorMode)

  /** The console's own theme settings: the mode and the theme chosen for each colour mode. */
  datatype ThemeSettings = ThemeSettings(mode: ModeSetting, dark: string, light: string)

  /** `colorMode`: a fixed mode as it is; `auto` follows the preferred-dark flag. */
  function ResolveMode(m: ModeSetting, preferDark: bool): (r: ColorMode)
    ensures m.Fixed? ==> r == m.mode
    ensures m.Auto? ==> (r == Dark <==> preferDark)
  {
    if m.Fixed? then m.mode else if preferDark then Dark else Light
  }

  /** `config.value.theme[colorMode.value]`. */
  function ActiveTheme(t: ThemeSettings, preferDark: bool): (id: string)
    ensures ResolveMode(t.mode, preferDark) == Dark ==> id == t.dark
    ensures ResolveMode(t.mode, preferDark) == Light ==> id == t.light
  {
    match ResolveMode(t.mode, preferDark)
    case Dark => t.dark
    case Light => t.light
  }

  // ---------------------------------------------------------------------------
  // Assets

  /** A wallpaper or sticker picture: its file name and the side it is anchored to. */
  datatype Asset = Asset(name: string, anchor: string)

  /** An entry of the asset map. */
  datatype AssetsInfo = AssetsInfo(path: string, default: Asset, secondary: Option<Asset>)

  /** The secondary picture when it is asked for and the theme has one, the default picture otherwise. */
  function ChooseAsset(useSecondary: bool, info: AssetsInfo): (a: Asset)
    ensures useSecondary && info.secondary.Some? ==> a == info.secondary.value
    ensures !useSecondary || info.secondary.None? ==> a == info.default
  {
    if useSecondary && info.secondary.Some? then info.secondary.value else info.default
  }

  /** Whatever the settings, the picture shown is one the entry has. */
  lemma ChooseAssetOfEntry(useSecondary: bool, info: AssetsInfo)
    ensures var a := ChooseAsset(useSecondary, info); a == info.default || info.secondary == Some(a)
  {
  }

  const ResBaseUrl: string := "https://raw.githubusercontent.com/doki-theme/doki-theme-assets/master"

  function WallpaperImage(name: string): string {
    "url('" + ResBaseUrl + "/backgrounds/" + name + "')"
  }

  function StickerImage(path: string, name: string): string {
    "url('" + ResBaseUrl + "/stickers/vscode/" + path + "/" + name + "')"
  }

  /** Different pictures give different wallpaper images. */
  lemma WallpaperImageInjective(a: string, b: string)
    requires WallpaperImage(a) == WallpaperImage(b)
    ensures a == b
  {
    var p := "url('" + ResBaseUrl + "/backgrounds/";
    assert WallpaperImage(a) == p + (a + "')");
    assert WallpaperImage(b) == p + (b + "')");
    assert a + "')" == WallpaperImage(a)[|p|..];
    assert a == (a + "')")[..|a|];
    assert b == (b + "')")[..|b|];
  }

  /** For file names without a `/`, the sticker image tells the theme's directory and the file apart. */
  lemma StickerImageInjective(p: string, a: string, q: string, b: string)
    requires '/' !in a && '/' !in b
    requires StickerImage(p, a) == StickerImage(q, b)
    ensures p == q && a == b
  {
    var h := "url('" + ResBaseUrl + "/stickers/vscode/";
    var x := p + "/" + a;
    var y := q + "/" + b;
    assert StickerImage(p, a) == h + (x + "')");
    assert StickerImage(q, b) == h + (y + "')");
    assert x + "')" == StickerImage(p, a)[|h|..];
    assert x == (x + "')")[..|x|];
    assert y == (y + "')")[..|y|];
    assert x == y;
    LastSlashSplit(p, a, q, b);
  }

  lemma LastSlashSplit(p: string, a: string, q: string, b: string)
    requires '/' !in a && '/' !in b
    requires p + "/" + a == q + "/" + b
    ensures p == q && a == b
  {
    var x := p + "/" + a;
    SlashAt(p, a);
    SlashAt(q, b);
    if |a| < |b| {
      CharAfterSlash(q, b, |b| - |a| - 1);
      assert false;
    } else if |b| < |a| {
      CharAfterSlash(p, a, |a| - |b| - 1);
      assert false;
    }
    assert a == x[|x| - |a|..];
    assert b == x[|x| - |b|..];
    assert p == x[..|p|];
    assert q == x[..|q|];
  }

  lemma SlashAt(p: string, a: string)
    ensures (p + "/" + a)[|p|] == '/'
  {
  }

  lemma CharAfterSlash(p: string, a: string, k: int)
    ensures 0 <= k < |a| ==> (p + "/" + a)[|p| + 1 + k] == a[k]
  {
  }

  // ---------------------------------------------------------------------------
  // What the page should show

  /** The four body style properties the plugin writes. */
  datatype Wallpaper = Wallpaper(image: string, position: string, size: string, opacity: string)

  /** All four properties cleared. */
  const NoWallpaper: Wallpaper := Wallpaper("", "", "", "")

  /** The style properties of the sticker element the plugin writes for a theme. */
  datatype StickerLook = StickerLook(image: string, opacity: string, position: string)

  /** The body dressed for a theme; `fmt` is how numbers become text. */
  function WallpaperOf(info: AssetsInfo, c: DokiConfig, fmt: real -> string): Wallpaper {
    var a := ChooseAsset(c.useSecondaryWallpaper, info);
    Wallpaper(WallpaperImage(a.name), a.anchor + " bottom", "cover", fmt(c.wallpaperOpacity))
  }

  /** The sticker dressed for a theme: the picture from the theme's directory, the opacity, and the offsets from the bottom right corner. */
  function StickerOf(info: AssetsInfo, c: DokiConfig, fmt: real -> string): StickerLook {
    var a := ChooseAsset(c.useSecondarySticker, info);
    StickerLook(StickerImage(info.path, a.name), fmt(c.stickerOpacity),
                "bottom " + fmt(c.stickerYOffset) + "% right " + fmt(c.stickerXOffset) + "%")
  }

  /** The body's wallpaper properties and the sticker element, absent or with its look. */
  datatype View = View(wallpaper: Wallpaper, sticker: Option<StickerLook>)

  /**
   * The decisions of the effect: a theme missing from the asset map clears
   * the wallpaper and removes the sticker; for a known theme each toggle
   * decides its own part.
   */
  function DesiredView(t: ThemeSettings, preferDark: bool, assets: map<string, AssetsInfo>,
                       c: DokiConfig, fmt: real -> string): View
  {
    var id := ActiveTheme(t, preferDark);
    if id !in assets then View(NoWallpaper, None)
    else
      View(if c.useWallpaper then WallpaperOf(assets[id], c, fmt) else NoWallpaper,
           if c.useSticker then Some(StickerOf(assets[id], c, fmt)) else None)
  }

  /** With the active theme missing from the asset map, nothing is shown, whatever the toggles say. */
  lemma UnknownThemeShowsNothing(t: ThemeSettings, preferDark: bool, assets: map<string, AssetsInfo>,
                                 c: DokiConfig, fmt: real -> string)
    requires ActiveTheme(t, preferDark) !in assets
    ensures DesiredView(t, preferDark, assets, c, fmt) == View(NoWallpaper, None)
  {
  }

  /**
   * For a known theme the wallpaper is set exactly when it is used and the
   * sticker is shown exactly when it is used, each with the picture the
   * settings choose.
   */
  lemma KnownThemeToggles(t: ThemeSettings, preferDark: bool, assets: map<string, AssetsInfo>,
                          c: DokiConfig, fmt: real -> string)
    requires ActiveTheme(t, preferDark) in assets
    ensures var v := DesiredView(t, preferDark, assets, c, fmt);
            var info := assets[ActiveTheme(t, preferDark)];
            && (c.useWallpaper ==> v.wallpaper.image == WallpaperImage(ChooseAsset(c.useSecondaryWallpaper, info).name))
            && (!c.useWallpaper ==> v.wallpaper == NoWallpaper)
            && (v.sticker.Some? <==> c.useSticker)
            && (c.useSticker ==> v.sticker.value.image == StickerImage(info.path, ChooseAsset(c.useSecondarySticker, info).name))
  {
  }

  /** The sticker settings do not affect the wallpaper, and the wallpaper settings do not affect the sticker. */
  lemma TogglesIndependent(t: ThemeSettings, preferDark: bool, assets: map<string, AssetsInfo>,
                           c: DokiConfig, c': DokiConfig, fmt: real -> string)
    ensures (c'.useWallpaper, c'.useSecondaryWallpaper, c'.wallpaperOpacity)
              == (c.useWallpaper, c.useSecondaryWallpaper, c.wallpaperOpacity) ==>
            DesiredView(t, preferDark, assets, c', fmt).wallpaper == DesiredView(t, preferDark, assets, c, fmt).wallpaper
    ensures (c'.useSticker, c'.useSecondarySticker, c'.stickerOpacity, c'.stickerXOffset, c'.stickerYOffset)
              == (c.useSticker, c.useSecondarySticker, c.stickerOpacity, c.stickerXOffset, c.stickerYOffset) ==>
            DesiredView(t, preferDark, assets, c', fmt).sticker == DesiredView(t, preferDark, assets, c, fmt).sticker
  {
  }

  // ---------------------------------------------------------------------------
  // The page

  const StickerElemId: string := "doki-theme-sticker"

  /** The sticker `div`: its layout is set when it is made, its look each time a theme is shown. */
  class StickerElem {
    var id: string
    var position: string
    var bottom: string
    var right: string
    var zIndex: string
    var width: string
    var height: string
    var backgroundRepeat: string
    var pointerEvents: string
    var backgroundImage: string
    var opacity: string
    var backgroundPosition: string

    /** A full-window, fixed, click-through layer anchored to the bottom right corner. */
    predicate HasLayout()
      reads this
    {
      && id == StickerElemId && position == "fixed" && bottom == "0" && right == "0"
      && zIndex == "100" && width == "100%" && height == "100%"
      && backgroundRepeat == "no-repeat" && pointerEvents == "none"
    }

    function Look(): StickerLook
      reads this
    {
      StickerLook(backgroundImage, opacity, backgroundPosition)
    }

    /** `createElement("div")` and the layout `getStickerElem` gives it. */
    constructor ()
      ensures HasLayout()
      ensures Look() == StickerLook("", "", "")
    {
      id := StickerElemId;
      position := "fixed";
      bottom := "0";
      right := "0";
      zIndex := "100";
      width := "100%";
      height := "100%";
      backgroundRepeat := "no-repeat";
      pointerEvents := "none";
      backgroundImage := "";
      opacity := "";
      backgroundPosition := "";
    }
  }

  /**
   * The page as the plugin sees it: the body's four wallpaper properties and
   * the elements of the document with the sticker id, in document order.
   */
  class Console {
    var backgroundImage: string
    var backgroundPosition: string
    var backgroundSize: string
    var opacity: string
    var stickers: seq<StickerElem>

    /**
     * At most one sticker element is ever in the document, and it carries
     * the layout `getStickerElem` gives it.
     */
    predicate Valid()
      reads this, stickers
    {
      |stickers| <= 1 && forall e :: e in stickers ==> e.HasLayout()
    }

    function Wall(): Wallpaper
      reads this
    {
      Wallpaper(backgroundImage, backgroundPosition, backgroundSize, opacity)
    }

    /** The look of the element `getElementById` finds, if any. */
    function Sticker(): Option<StickerLook>
      reads this, stickers
    {
      if stickers == [] then None else Some(stickers[0].Look())
    }

    function Shown(): View
      reads this, stickers
    {
      View(Wall(), Sticker())
    }

    /** A page with the given body style and no sticker element. */
    constructor (w: Wallpaper)
      ensures Valid() && Wall() == w && stickers == []
    {
      backgroundImage := w.image;
      backgroundPosition := w.position;
      backgroundSize := w.size;
      opacity := w.opacity;
      stickers := [];
    }

    /** `setWallpaper`: the body dressed with the chosen picture; the sticker is not touched. */
    method SetWallpaper(info: AssetsInfo, c: DokiConfig, fmt: real -> string)
      modifies this
      ensures Wall() == WallpaperOf(info, c, fmt)
      ensures stickers == old(stickers) && Sticker() == old(Sticker())
    {
      var a := ChooseAsset(c.useSecondaryWallpaper, info);
      backgroundImage := WallpaperImage(a.name);
      backgroundPosition := a.anchor + " bottom";
      backgroundSize := "cover";
      opacity := fmt(c.wallpaperOpacity);
    }

    /** `unsetWallpaper`: exactly the four properties cleared. */
    method UnsetWallpaper()
      modifies this
      ensures Wall() == NoWallpaper
      ensures stickers == old(stickers) && Sticker() == old(Sticker())
    {
      backgroundImage := "";
      backgroundPosition := "";
      backgroundSize := "";
      opacity := "";
    }

    /**
     * `getStickerElem`: the element already in the document if there is one;
     * only otherwise a new element, laid out and appended to the body.
     * Either way the document then holds exactly that one element.
     */
    method GetStickerElem() returns (e: StickerElem)
      requires Valid()
      modifies this
      ensures Valid() && stickers == [e]
      ensures old(stickers) != [] ==> e == old(stickers)[0] && e.Look() == old(e.Look())
      ensures old(stickers) == [] ==> fresh(e) && e.HasLayout() && e.Look() == StickerLook("", "", "")
      ensures Wall() == old(Wall())
    {
      if stickers != [] {
        e := stickers[0];
      } else {
        e := new StickerElem();
        stickers := stickers + [e];
      }
    }

    /** `setSticker`: the one sticker element shows the chosen picture; the body is not touched. */
    method SetSticker(info: AssetsInfo, c: DokiConfig, fmt: real -> string)
      requires Valid()
      modifies this, stickers
      ensures Valid() && |stickers| == 1
      ensures Sticker() == Some(StickerOf(info, c, fmt))
      ensures old(stickers) != [] ==> stickers == old(stickers)
      ensures old(stickers) == [] ==> stickers[0].HasLayout()
      ensures old(stickers) != [] ==> (stickers[0].HasLayout() <==> old(stickers[0].HasLayout()))
      ensures Wall() == old(Wall())
    {
      var e := GetStickerElem();
      var a := ChooseAsset(c.useSecondarySticker, info);
      e.backgroundImage := StickerImage(info.path, a.name);
      e.opacity := fmt(c.stickerOpacity);
      e.backgroundPosition := "bottom " + fmt(c.stickerYOffset) + "% right " + fmt(c.stickerXOffset) + "%";
    }

    /** `unsetSticker`: the element `getElementById` finds, the only one, is removed. */
    method UnsetSticker()
      requires Valid()
      modifies this
      ensures Valid() && stickers == [] && Sticker() == None
      ensures Wall() == old(Wall())
    {
      if stickers != [] {
        stickers := stickers[1..];
      }
    }

    /**
     * The effect, run when the settings change: the wallpaper is first
     * cleared if another plugin provides one, yet that does not stop the
     * plugin setting its own afterwards; then the page shows what the
     * decisions ask for.
     */
    method Refresh(externalWallpaper: bool, t: ThemeSettings, preferDark: bool,
                   assets: map<string, AssetsInfo>, c: DokiConfig, fmt: real -> string)
      requires Valid()
      modifies this, stickers
      ensures Valid()
      ensures Shown() == DesiredView(t, preferDark, assets, c, fmt)
      ensures stickers != [] ==> stickers[0].HasLayout()
    {
      if externalWallpaper {
        UnsetWallpaper();
      }
      var id := ActiveTheme(t, preferDark);
      if id !in assets {
        UnsetWallpaper();
        UnsetSticker();
        return;
      }
      var info := assets[id];
      if c.useWallpaper {
        SetWallpaper(info, c, fmt);
      } else {
        UnsetWallpaper();
      }
      if c.useSticker {
        SetSticker(info, c, fmt);
      } else {
        UnsetSticker();
      }
    }

    /** On dispose the wallpaper is cleared and the sticker removed. */
    method Dispose()
      requires Valid()
      modifies this
      ensures Valid() && Shown() == View(NoWallpaper, None)
    {
      UnsetWallpaper();
      UnsetSticker();
    }
  }

  // ---------------------------------------------------------------------------
  // The asset map entries the generator writes, as the console reads them

  function AssetFromJson(j: Json): Option<Asset> {
    if !j.JObj? then None
    else
      var name := Lookup(j.members, "name");
      var anchor := Lookup(j.members, "anchor");
      if name.Some? && name.value.JStr? && anchor.Some? && anchor.value.JStr?
      then Some(Asset(name.value.str, anchor.value.str))
      else None
  }

  /** An entry: its `path`, its `default` picture and, when the key is there, its `secondary` one. */
  function InfoFromJson(j: Json): Option<AssetsInfo> {
    if !j.JObj? then None
    else
      var path := Lookup(j.members, "path");
      var def := Lookup(j.members, "default");
      var sec := Lookup(j.members, "secondary");
      if !(path.Some? && path.value.JStr? && def.Some? && AssetFromJson(def.value).Some?) then None
      else if sec.None? then Some(AssetsInfo(path.value.str, AssetFromJson(def.value).value, None))
      else if AssetFromJson(sec.value).None? then None
      else Some(AssetsInfo(path.value.str, AssetFromJson(def.value).value, AssetFromJson(sec.value)))
  }

  function AssetOf(v: ThemeTransform.StickerInfo): Asset {
    Asset(v.name, ThemeTransform.AnchorText(v.anchor))
  }

  lemma PickedAsset(v: ThemeTransform.StickerInfo)
    ensures AssetFromJson(PickSticker(v)) == Some(AssetOf(v))
  {
    var ms := PickSticker(v).members;
    assert ms[0].0 == "name" && ms[1].0 == "anchor";
    assert "name" != "anchor";
    KeyIndexIs(ms, "name", 0);
    KeyIndexIs(ms, "anchor", 1);
  }

  /**
   * An entry the generator writes reads, on the console, as the definition's
   * path and its pictures: the secondary picture is there exactly when the
   * definition has a secondary sticker.
   */
  lemma GeneratedInfoReads(path: string, st: ThemeTransform.Stickers)
    ensures InfoFromJson(AssetInfo(path, st))
            == Some(AssetsInfo(path, AssetOf(st.default),
                               if st.secondary.Some? then Some(AssetOf(st.secondary.value)) else None))
  {
    AssetInfoShape(path, st);
    PickedAsset(st.default);
    var ms := AssetInfo(path, st).members;
    assert ms[0] == ("path", JStr(path)) && ms[1] == ("default", PickSticker(st.default));
    assert "path" != "default" && "path" != "secondary" && "default" != "secondary";
    KeyIndexIs(ms, "path", 0);
    KeyIndexIs(ms, "default", 1);
    if st.secondary.Some? {
      PickedAsset(st.secondary.value);
      assert ms[2] == ("secondary", PickSticker(st.secondary.value));
      KeyIndexIs(ms, "secondary", 2);
    } else {
      assert |ms| == 2;
      assert KeyIndex(ms, "secondary") == None;
    }
  }
}
