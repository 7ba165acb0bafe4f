# Doki themes for the Koishi console, modelled in Dafny

This project models the core of `koishi-plugin-theme-doki`, a plugin that
brings the Doki themes to the Koishi web console. The core has two parts.

- **The generator script** (`scripts/generate-theme.ts`). In the order the
  script runs them:
  - `transformThemeDef` turns each Doki theme definition into a flat Koishi
    theme record (`ThemeTransform`).
  - `generateThemeCss` fills a stylesheet template with the record's tokens,
    in two regular-expression passes (`ThemeCss`). `ThemeCssLines` states
    the result for a template written line by line.
  - `generateIndexCss` writes one `@use` line per theme (`ThemeModule`).
  - `generateThemeTs` writes the theme module. It holds the asset map as JSON
    text and one `ctx.theme` registration per theme, spliced into a template
    (`ThemeModule` for the asset map and its JSON, `ThemeTs` for the
    registrations and the splice).
- **The console client** (`client/index.ts`, module `Client`):
  - the plugin settings, with their defaults and ranges;
  - the colour mode;
  - the choice between a theme's default and secondary picture;
  - the effect that sets or clears the page body's wallpaper and keeps a
    single sticker element.

  The page is a `Console` class. It holds the body's four wallpaper style
  properties and the document's elements that carry the sticker id. Its
  methods are proved against `DesiredView`, a function of the settings and
  the asset map.

The supporting modules:
- `Text` holds the JavaScript string operations the script relies on:
  - `toLowerCase`, on ASCII letters;
  - `endsWith`, `indexOf` and `join`;
  - `replace` with a string pattern, which replaces only the first
    occurrence and interprets the `$` patterns of the replacement.
- `Wrappers` holds `Option` and `Result`.

Each regular expression is a scanner written out position by position. It
has the regex's greedy and lazy choices and its resumption after each match.
Templates are parameters. Number-to-text conversion is the parameter `fmt`.

Four behaviours of the code shape the model:
- **Identifier runs.** Each UTF-16 code unit of a character that is not an
  ASCII letter or digit becomes its own `-`, so an emoji gives `--`; runs are
  not collapsed.
- **Suffix rule.** No `-dark`/`-light` suffix is added when the base ends
  with either word, whatever the theme's polarity.
- **Collisions.** Colliding identifiers are not detected:
  - `ThemeTransform.IdsCanCollide` exhibits two names that collide;
  - `Object.fromEntries` keeps the last entry's value, at the first key's
    position.
- **Deletion pass.** The deletion of `…: /* unresolved */;` is a single
  left-to-right scan, so its output can still hold such a declaration
  (`ThemeCss.UnresolvedCanSurvive`).

## Model

| member | source | states |
|---|---|---|
| ThemeTransform.TransformThemeDef | scripts/generate-theme.ts:127-172 | The record keeps the definition. Its name is `group: name` and its id is `ThemeId(name, dark)`. A dark theme's bg1/bg2/bg3 are the base, header and editor backgrounds; a light theme's are the reverse. Every alpha token is its base colour with the fixed two-digit suffix. |
| ThemeTransform.ThemeId | scripts/generate-theme.ts:130-133 | The id is `doki-` + base, plus `-dark` or `-light` exactly when the base ends with neither `dark` nor `light`. |
| ThemeTransform.IdBaseChars | scripts/generate-theme.ts:130 | The base has as many characters as the name has UTF-16 code units. It is built character by character: an ASCII letter or digit adds itself lower-cased, and any other character adds one `-` per code unit, two for a character outside the Basic Multilingual Plane. Runs are not collapsed. |
| ThemeTransform.EmojiBecomesTwoDashes | scripts/generate-theme.ts:130 | The name `a😀` gives the base `a--`: each half of the emoji's surrogate pair becomes a `-`. |
| ThemeTransform.IdBaseIsSlug | scripts/generate-theme.ts:130 | The base is made of `a-z`, `0-9` and `-` only. |
| ThemeTransform.ThemeIdIsSlug | scripts/generate-theme.ts:130-133 | Every id starts with `doki-`. It is made of `a-z`, `0-9` and `-`, and is between 5 and 11 characters longer than the name's length in UTF-16 code units. |
| ThemeTransform.ThemeIdScheme | scripts/generate-theme.ts:131-133 | Every id ends with `dark` or `light`. When the suffix is added, the id ends with the theme's own `-dark`/`-light`. |
| ThemeTransform.ArcticIds | scripts/generate-theme.ts:130-133 | A dark and a light definition both named `Arctic` get `doki-arctic-dark` and `doki-arctic-light`. |
| ThemeTransform.IdsCanCollide | scripts/generate-theme.ts:130-133 | Two different names, `A B` and `a-b`, give the same id, and nothing reports it. |
| ThemeTransform.FlippedSchemeReversesLayers | scripts/generate-theme.ts:141-152 | Flipping only the dark flag reverses the three background layers. Every other token and the display name stay as they were. |
| ThemeTransform.AlphaTokensWellFormed | scripts/generate-theme.ts:153-170 | Each of the nine alpha tokens is its base colour followed by exactly two lower-case hexadecimal digits. |
| ThemeTransform.ExampleAlphaTokens | scripts/generate-theme.ts:153-155 | For the foreground `#112233`, fg1/fg2/fg3 are `#112233e5`, `#11223399` and `#11223366`. |
| ThemeCss.Tokens | scripts/generate-theme.ts:181-182 | The keys a placeholder can resolve are exactly the theme record's string-valued properties (`$original` is not one). |
| ThemeCss.PlaceholderMatch | scripts/generate-theme.ts:180 | A `var(__key)` placeholder with a key free of white space and `)` is matched whole, capturing the key. |
| ThemeCss.NoUnderscoreNoMatch | scripts/generate-theme.ts:180 | No placeholder match starts in a stretch of text without `_` that the end of the text or a `v` follows. |
| ThemeCss.SubstTemplate | scripts/generate-theme.ts:180-187 | In a template of literal text without `_` and placeholders with valid keys, each placeholder becomes its token's value, or `/* unresolved */` when the key is unknown. All literal text is copied. |
| ThemeCss.DropNoMarker | scripts/generate-theme.ts:188 | The second pass leaves text without `/* unresolved */` unchanged. |
| ThemeCss.DropNoColon | scripts/generate-theme.ts:188 | The second pass leaves text without a colon unchanged. |
| ThemeCss.SpaceDeclDrops | scripts/generate-theme.ts:188 | A declaration `pre:` + white space + the comment + `;` at the start of a line is deleted through the semicolon, when no colon follows anywhere after it in the text. |
| ThemeCss.ResolvedTemplate | scripts/generate-theme.ts:178-190 | With every key known and no marker among the values, the stylesheet is the filled template. |
| ThemeCss.UnknownKeyDropsLine | scripts/generate-theme.ts:178-190 | For a template that starts with a declaration `x: var(__key);` with an unknown key and goes on with text free of `_` and `:`, the stylesheet is that text alone. |
| ThemeCssLines.StylesheetLines | scripts/generate-theme.ts:178-190 | For a template of newline-terminated lines, the stylesheet has the same lines in the same order. A declaration `prop: var(__key);` gets the token's value when the key is known and becomes an empty line when it is not. Every other line is copied. |
| ThemeCssLines.LinesTemplateFacts | scripts/generate-theme.ts:180-187 | A template written line by line has literal text without `_`, and its first pass gives the lines with each placeholder filled in. |
| ThemeCssLines.KnownLineCopies | scripts/generate-theme.ts:188 | A line that ends in `;`, with no marker text after its first colon, is copied by the second pass. |
| ThemeCssLines.UnknownLineDrops | scripts/generate-theme.ts:188 | A filled line `prop: /* unresolved */;` is deleted by the second pass, keeping its line break. |
| ThemeCssLines.PlainLineCopies | scripts/generate-theme.ts:188 | A line without the marker that ends in neither white space nor a colon is copied by the second pass. |
| ThemeCss.UnresolvedCanSurvive | scripts/generate-theme.ts:188 | For `a:\nx: M;M;`, where M is the marker, the output is `a:\nM;`. The second pass would match that output again. |
| ThemeModule.IndexCssText | scripts/generate-theme.ts:192-195 | The index stylesheet is every theme's `@use './themes/<id>.scss';` line, each followed by a newline. With no themes it is a lone newline. |
| ThemeModule.IndexCssLines | scripts/generate-theme.ts:192-195 | For single-line ids, splitting at newlines gives one `@use` line per theme, in input order, then the empty text after the final newline. |
| ThemeModule.IndexCssOfTransformed | scripts/generate-theme.ts:192-195 | For themes made by the transformation, the index stylesheet has one line per theme, in order. |
| ThemeModule.ExecFromSpec | scripts/generate-theme.ts:203-205 | `exec` finds the leftmost match of `definitions\/(.*)\/(.*)\.definition\.json`. At that position the path group is the longest possible, and no match means none exists. |
| ThemeModule.DefinitionPathOfUrl | scripts/generate-theme.ts:203-205 | For a URL `<pre>definitions/<dir>/<file>.definition.json`, the captured path is `dir`. It needs no earlier `definitions/`, single-line parts and no `/` in the file name. |
| ThemeModule.DefinitionPathNone | scripts/generate-theme.ts:203-205 | A URL without `definitions/` has no path, so reading the groups throws. |
| ThemeModule.FromEntriesSpec | scripts/generate-theme.ts:199-211 | The object has one key per distinct name, in order of first occurrence, holding the last entry's value. Entries with distinct names come out unchanged. |
| ThemeModule.PutLookup | scripts/generate-theme.ts:206 | Defining a property makes it hold the new value and leaves every other property's value alone. |
| ThemeModule.AssetInfoShape | scripts/generate-theme.ts:202-211 | An entry is exactly `{path, default}` or `{path, default, secondary}`, each sticker reduced to `{name, anchor}`. There is no `secondary` key when the definition has none. |
| ThemeModule.AssetEntriesSpec | scripts/generate-theme.ts:200-213 | The entries are built exactly when every URL has a path. There is then one entry per theme, in order. |
| ThemeModule.AssetEntriesFailure | scripts/generate-theme.ts:203-205 | When building fails, the error is the URL of a theme whose entry throws. |
| ThemeModule.AssetNameMapSpec | scripts/generate-theme.ts:198-214 | The asset map's keys are the theme ids in order of first occurrence. Each holds the last entry with that id; collisions are not reported. |
| ThemeModule.AssetNameMapDistinct | scripts/generate-theme.ts:198-214 | With distinct ids, every theme's own entry is found under its id. |
| ThemeModule.JsonEscapeReads | scripts/generate-theme.ts:198-217 | A string written by `JSON.stringify` reads back as itself. |
| ThemeModule.StringifyReads | scripts/generate-theme.ts:198-217 | Any value written by `JSON.stringify(v, null, 2)` reads back as that value, and the reader stops right after it. |
| ThemeModule.MembersReads | scripts/generate-theme.ts:198-217 | The properties of an object written with two-space indentation read back in order, up to the closing brace. |
| ThemeTs.EscapeQuotesReads | scripts/generate-theme.ts:223 | For text without a backslash or line break, the single-quoted literal with each `'` escaped reads back as that text. |
| ThemeTs.EscapeQuotesQuoteFree | scripts/generate-theme.ts:223 | Escaping leaves text without quotes unchanged. |
| ThemeTs.RegistrationReads | scripts/generate-theme.ts:221-224 | A `ctx.theme({ id, name })` block reads back as the id and the name it was written from. |
| ThemeTs.ApplyThemeCodeReads | scripts/generate-theme.ts:218-226 | The registration code holds exactly one block per theme, in the themes' order, each with the theme's id and name. |
| ThemeTs.TransformedRegistrations | scripts/generate-theme.ts:218-226 | For transformed themes whose group and name have no backslash or line break, each theme is registered in order under its id as `group: name`. |
| ThemeTs.TrailingBackslashBreaks | scripts/generate-theme.ts:223 | A name `\` is written as `\'`, which escapes the closing quote, so the block no longer reads as a registration. |
| ThemeTs.GenerateThemeTsFailure | scripts/generate-theme.ts:197-231 | The module is produced exactly when every theme's URL has a definition path. Otherwise the error is the URL of a theme without one. |
| ThemeTs.GenerateThemeTsShape | scripts/generate-theme.ts:227-229 | For a template whose first markers are a `nameMap` marker and, after it, a `themes` marker, and inserted texts without `$`, the module is the template with exactly those two markers replaced. |
| ThemeTs.NameMapCodeReads | scripts/generate-theme.ts:198-217 | The JSON text put in place of the `nameMap` marker reads back as the asset map. |
| Text.ReplaceFirstExpands | scripts/generate-theme.ts:227-229 | `replace` with a string pattern replaces only the first occurrence, by the replacement with its `$` patterns expanded. Later occurrences stay. |
| Text.ReplaceFirstKeepsMatch | scripts/generate-theme.ts:227-229 | An inserted text of `$&` puts the marker itself back. |
| Text.ReplaceFirstRepeatsBefore | scripts/generate-theme.ts:227-229 | An inserted text of `` $` `` repeats the whole template text before the marker. |
| Client.ConfigOnReady | client/index.ts:99 | Stored settings are kept. Missing settings become the schema's defaults, which lie within the ranges. |
| Client.ResolveMode | client/index.ts:102-106 | A fixed colour mode is used as it is. `auto` gives dark exactly when dark is preferred. |
| Client.ActiveTheme | client/index.ts:172 | The active theme is the one the console's settings choose for the resolved mode. |
| Client.ChooseAsset | client/index.ts:132-157 | The secondary picture is used exactly when it is asked for and exists; otherwise the default is used. |
| Client.ChooseAssetOfEntry | client/index.ts:132-157 | The picture used is always one that the entry has. |
| Client.WallpaperImageInjective | client/index.ts:136 | Different wallpaper pictures give different `url(...)` values, so the body's image in `Console.Refresh`'s result determines the picture. No other proof relies on it, and the code makes no such promise. |
| Client.StickerImageInjective | client/index.ts:159 | For file names without `/`, the sticker's `url(...)` determines both the theme's directory and the file, so the sticker's image in `Console.Refresh`'s result determines the picture. No other proof relies on it, and the code makes no such promise. |
| Client.UnknownThemeShowsNothing | client/index.ts:172-178 | A theme missing from the asset map clears the wallpaper and removes the sticker, whatever the toggles say. |
| Client.KnownThemeToggles | client/index.ts:180-184 | For a known theme, the wallpaper is set exactly when it is used and the sticker is shown exactly when it is used, each with the chosen picture. |
| Client.TogglesIndependent | client/index.ts:180-184 | The sticker settings do not affect the wallpaper, and the wallpaper settings do not affect the sticker. |
| Client.Console.SetWallpaper | client/index.ts:130-140 | The body's image, position, size and opacity become those of the chosen picture. The sticker is untouched. |
| Client.Console.UnsetWallpaper | client/index.ts:142-147 | Exactly those four properties are cleared. |
| Client.Console.GetStickerElem | client/index.ts:111-128 | The existing element is returned if there is one. Only otherwise is a new, laid-out element appended. Afterwards the document holds exactly that one element. |
| Client.Console.SetSticker | client/index.ts:149-163 | The single sticker element shows the chosen picture, opacity and offsets. A newly created element carries the fixed layout, and an existing one keeps its layout. The body is untouched. |
| Client.Console.UnsetSticker | client/index.ts:165-167 | The element `getElementById` finds is removed. Under the invariant, none is left. |
| Client.Console.Refresh | client/index.ts:169-185 | After the effect, the page shows `DesiredView` of the settings and the asset map, whether or not another plugin provides a wallpaper. A sticker element left in the document carries the fixed layout of `getStickerElem`. |
| Client.Console.Dispose | client/index.ts:187-190 | On dispose, the wallpaper is cleared and the sticker removed. |
| Client.GeneratedInfoReads | client/index.ts:132-159 | An entry written by the generator reads, on the console, as the path and pictures of the definition. It has a secondary picture exactly when the definition has a secondary sticker. |

## Left out

- Fetching the definitions (GitHub tree listing, `fetch`, the `Semaphore(8)` bound) is network I/O and concurrency. The list of definitions is an input.
- Filesystem work is I/O: creating and removing directories, reading the two templates, the writes and the async driver. The templates are parameters.
- Identifier collisions are not detected, because the code does not detect them. The model shows that they happen and that the asset map keeps the last one.
- Number-to-text conversion of opacities and offsets is floating-point formatting. It is the parameter `fmt`.
- Vue reactivity, `Schema` internals, `ctx.settings`, `ctx.on`, `usePreferredDark` and the real DOM are host framework code. Only their effect on the page state is modelled. The preferred-dark flag and the store's wallpaper flag are inputs.
- src/index.ts is not part of this model. It only selects the console entry files.
- The step attribute (`0.01`) of the two opacity sliders is not modelled. It only affects the settings form.
- `setSticker` continues after `await getStickerElem()` in a later microtask. The model runs it at once, so it does not capture another effect run slipping in between. Re-appending the element to the body, which moves it to the end, is not modelled either.
- The unreachable `if (!elem) return;` in `setSticker` is not modelled.
- `JSON.stringify` escapes lone UTF-16 surrogates. `char` here is a Unicode scalar value, so there are none to escape.
- `JSON.stringify` orders object keys that look like array indices first. Theme ids start with `doki-`, so they never do.
- The sticker keys of an entry come in `default`, then `secondary` order. The source takes the definition file's own key order, and other keys of the stickers record are not modelled.
- `ThemeTs.GenerateThemeTsShape`: JSON text or registration code containing `$` is excluded. With `$` in it, `replace` expands `$` patterns (`Text.ReplaceFirstKeepsMatch`, `Text.ReplaceFirstRepeatsBefore`).
- `ThemeTs.ApplyThemeCodeReads`: holds only for names without a backslash or line break. A backslash is not escaped (`ThemeTs.TrailingBackslashBreaks`), and the reader accepts only the two escapes `\'` and `\\`.
- `Text.LowerCase`: lower-cases ASCII letters only, so the id turns every non-ASCII character into `-`, or `--` outside the Basic Multilingual Plane. JavaScript's `toLowerCase` maps a few non-ASCII characters to ASCII letters (the Kelvin sign to `k`) or to two characters (`İ`); those ids differ.
- `ThemeModule.DefinitionPathOfUrl`: stated for URLs of the usual form. `ThemeModule.ExecFromSpec` covers every URL.
- Looking up a theme id in the asset map is a map lookup. Ids that name properties of JavaScript's object prototype, such as `constructor`, are not modelled.
- The `console.warn` for an unknown key (scripts/generate-theme.ts:183) is console output and is not modelled.
- `ThemeCssLines.StylesheetLines`: every line, the last one included, ends with a newline. A declaration's property name holds no colon. Any other line holds no marker text and ends in neither white space nor a colon, since there `:\s*` could reach into the next line. The values used are single-line and hold no marker text. All literal text is free of `_`.
