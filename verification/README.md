# bombig-net/ui: the component library's own logic in Dafny

The bombig-net/ui React library is mostly styling wrappers over Radix,
react-aria and MUI. A few pure routines inside it decide what is rendered
and what is emitted. This project models those routines and proves what
they promise:

- **Pagination** (`Pagination`): the page window `getPages`, which shows page
  buttons and `'...'` separators; the `handlePageChange` guard; and when the
  previous and next controls are disabled.
- **Token grouping** (`GroupTokens`): `groupTokensByType`, which regroups a
  flat token map by type.
- **Feature card title** (`FeatureCard`): `splitTitle`, which splits a title
  into two display lines, and which of those lines render.
- **User** (`User`): initials from the name; the choice between avatar
  image, fallback text and initials; the image's alt; the description line.
- **Card** (`Card`): the press state machine, as a pure step function from
  the `isPressed` state and one DOM event to the new state and the press
  callbacks invoked. Also the `role`/`tabIndex` derivation and CardImage's
  rounding class, alt and `aria-hidden`.
- **Token build script** (`BuildTokens`, `ParseInt`): `hexToRGBChannels`
  and the `css/variables-rgb` line format. This includes JavaScript's
  `parseInt(s, 16)`, `substring` and `replace` as that code uses them.
- **Asset script** (`CopyAssets`): the font-path rewrite
  `../assets/fonts/` → `./fonts/`.

Shared helpers:

- `Wrappers.Option`.
- `Strings`: JavaScript `split`/`join` on one character, ASCII case mapping,
  decimal text of integers, and string truthiness.

Every module is a set of pure functions over immutable datatypes. The source
loops with mutation in two places: `getPages`'s push loop and the `forEach`
of `groupTokensByType`. Each is also written as a method. The first is proved
equal to the functional definition; the second is proved to yield the
grouping the functional definition describes.

Where the code disagrees with what surrounds it, the model follows the code:

- `groupTokensByType` copies values verbatim. One test expects
  `{tracking-tight}` to be resolved, but the function resolves no references.
- The pagination list is not capped at seven entries, whatever the name
  `maxVisible = 7` suggests: 20 pages with page 10 current gives 11 entries.

## Model

| member | source | states |
|---|---|---|
| Pagination.GetPages | src/components/pagination/pagination.tsx:124-163 | for any current page: no entries when `total < 1`; otherwise page 1 first and page `total` last; never more than eleven entries |
| Pagination.PageRange | src/components/pagination/pagination.tsx:129-131 | `Array.from({length: total}, (_, i) => i + 1)`: length `b - a + 1` (none when `a > b`), entry `i` is page `a + i` |
| Pagination.PushRange | src/components/pagination/pagination.tsx:151-153 | the push loop appends exactly pages `a..b` to what was there |
| Pagination.BuildPages | src/components/pagination/pagination.tsx:124-163 | the imperative `getPages`, with both edge corrections applied in order, yields the functional window `GetPages` |
| Pagination.SmallTotalListsEveryPage | src/components/pagination/pagination.tsx:129-131 | with at most seven pages the list is exactly pages `1..total`, no separator, whatever the current page |
| Pagination.FirstAndLastPage | src/components/pagination/pagination.tsx:134-160 | with more than seven pages the first entry is page 1, the last is page `total`, and there are 8 to 11 entries |
| Pagination.WindowBounds | src/components/pagination/pagination.tsx:136-145 | the corrected window lies within `2..total-1`, holds at most seven pages and at least two pages either side of the current one (where they exist); the first separator appears iff `page > 5` or `page >= total - 3`, the second iff `page <= 4` or `page < total - 4` |
| Pagination.EllipsisRules | src/components/pagination/pagination.tsx:147-157 | a separator is never first or last and never next to another; it sits between two buttons and hides at least one page; neighbouring buttons differ by exactly 1; at most two separators |
| Pagination.EllipsisCountExact | src/components/pagination/pagination.tsx:147-157 | the number of separators: one before the window unless it starts at page 2, one after unless it ends at page `total - 1` |
| Pagination.TwoEllipsesInTheMiddle | src/components/pagination/pagination.tsx:147-157 | 20 pages with page 10 current have a separator on each side |
| Pagination.PagesOrderedAndInRange | src/components/pagination/pagination.tsx:136-160 | page numbers strictly increase and lie in `1..total` |
| Pagination.NeighboursShown | src/components/pagination/pagination.tsx:136-153 | the current page and up to two pages on either side always have a button |
| Pagination.NoPageLost | src/components/pagination/pagination.tsx:136-160 | every page in `1..total` has a button or lies strictly between the two neighbours of a separator |
| Pagination.LayoutShows | src/components/pagination/pagination.tsx:134-160 | page `p` has a button iff it is page 1, page `total`, or inside the window |
| Pagination.CurrentPageShownOnce | src/components/pagination/pagination.tsx:209-213 | the current page has exactly one button, and only that button gets `cta` and `aria-current` |
| Pagination.HandlePageChange | src/components/pagination/pagination.tsx:165-169 | `onChange(n)` is called, with `n`, iff `onChange` is supplied and `1 <= n <= total` |
| Pagination.ControlsAgreeWithHandler | src/components/pagination/pagination.tsx:181-224 | previous is disabled iff `page == 1`, exactly when its press would be dropped; next likewise with `page == total`; an enabled control emits `page ∓ 1` |
| Pagination.PageButtonsAlwaysEmit | src/components/pagination/pagination.tsx:206-211 | pressing any rendered page button reaches `onChange` with that page |
| GroupTokens.GroupTokensByType | src/lib/groupTokensByType.ts:17-28 | whatever the visiting order, every token sits under its type and name with its value unchanged; a bucket holds only tokens of its type; there is a bucket exactly for each type that occurs, and none is empty; an empty `global` gives `{}` |
| GroupTokens.StorePreservesGrouping | src/lib/groupTokensByType.ts:21-24 | one loop step (create the bucket if missing, store the value) extends a grouping of the visited tokens by the new one |
| GroupTokens.GroupingDeterminedByGlobal | src/lib/groupTokensByType.ts:20 | the grouping is unique and depends on `global` alone, not on `$themes` or `$metadata` |
| GroupTokens.BucketSizesSum | src/lib/groupTokensByType.ts:20-25 | the bucket sizes add up to the number of tokens |
| FeatureCard.SplitTitle | src/components/card/feature-card.tsx:79-101 | at least two lines; exactly two when the title has no line break |
| FeatureCard.NewlineSplit | src/components/card/feature-card.tsx:81-83 | a title with a line break is split at every break, keeping empty lines; no line holds a break, and the lines rejoin to the title |
| FeatureCard.OneWord | src/components/card/feature-card.tsx:89-90 | a one-word title gives `[word, ""]`, so at most one line renders |
| FeatureCard.TwoWords | src/components/card/feature-card.tsx:89-90 | a two-word title gives its two words as the two lines |
| FeatureCard.WordsRoundTrip | src/components/card/feature-card.tsx:86-98 | without a line break, `line1 + " " + line2 == title`; the first line holds the first `ceil(n/2)` words, the second the rest |
| FeatureCard.BalancedLines | src/components/card/feature-card.tsx:94 | the first line has as many words as the second or one more |
| FeatureCard.RenderedLines | src/components/card/feature-card.tsx:151-164 | only the first two lines render, each only when non-empty |
| User.Initials | src/components/user/user.tsx:55-62 | the initials have at most two characters |
| User.HeadsOfWords | src/components/user/user.tsx:57-59 | joining the words' first characters gives one character per non-empty word, its first |
| User.InitialsOfWords | src/components/user/user.tsx:55-62 | the initials are the upper-cased first characters of the first two non-empty words, in order; empty words from repeated spaces add nothing |
| User.LeadingSpaceIgnored | src/components/user/user.tsx:57-59 | a leading space does not change the initials |
| User.JohnDoe | src/components/user/user.tsx:55-62 | "John Doe" gives "JD" |
| User.ImageAlt | src/components/user/user.tsx:69-71 | a supplied alt is kept, even an empty one; without one the alt is `"<name>'s avatar"` |
| User.AvatarView | src/components/user/user.tsx:67-75 | an image iff `avatarProps.src` is non-empty, and then no text; otherwise the fallback when non-empty, else the initials |
| User.DescriptionLine | src/components/user/user.tsx:79-81 | the description line renders iff the description is non-empty |
| Card.HandlePress | src/components/card/card.tsx:91-96 | a click never changes the state and calls at most `onPress` |
| Card.HandleKeyDown | src/components/card/card.tsx:98-108 | keydown never calls `onPress`, and its callbacks agree with the new state |
| Card.HandleKeyUp | src/components/card/card.tsx:110-122 | `onPress` on keyup only for Enter or Space, and the callbacks agree with the new state |
| Card.HandleMouseDown | src/components/card/card.tsx:124-131 | mousedown never calls `onPress`, and its callbacks agree with the new state |
| Card.HandleMouseUp | src/components/card/card.tsx:133-141 | mouseup never calls `onPress`, and its callbacks agree with the new state |
| Card.HandleMouseLeave | src/components/card/card.tsx:143-149 | mouseleave never calls `onPress`, and its callbacks agree with the new state |
| Card.Step | src/components/card/card.tsx:165-189 | a non-clickable, disabled or `asChild` card ignores every event; `onPress` comes only from a click or an Enter/Space keyup; press start leaves it pressed, press end or up leaves it released, a change announces the new state |
| Card.KeyDownPresses | src/components/card/card.tsx:98-108 | Enter or Space keydown presses and calls `onPressStart`, then `onPressChange(true)`; any other key does nothing |
| Card.KeyUpReleases | src/components/card/card.tsx:110-122 | Enter or Space keyup releases and calls `onPress`, `onPressEnd`, `onPressChange(false)`, `onPressUp`, in that order; any other key does nothing |
| Card.MouseDownLikeEnter | src/components/card/card.tsx:124-131 | mousedown behaves exactly like an Enter keydown |
| Card.MouseUpWithoutPress | src/components/card/card.tsx:133-141 | mouseup never calls `onPress`; it is an Enter keyup minus the press |
| Card.MouseLeaveReleases | src/components/card/card.tsx:143-149 | mouseleave releases and calls only `onPressChange(false)` |
| Card.InertRun | src/components/card/card.tsx:87-149 | a disabled, non-clickable or `asChild` card ignores every trace of events |
| Card.AsChildInert | src/components/card/card.tsx:87-89 | an `asChild` card renders a Fragment: no role, no tab stop, and no press callback for any trace of events, even when clickable |
| Card.PressedMatchesLastChange | src/components/card/card.tsx:98-149 | with `onPressChange` supplied, the pressed state after any trace is the value of its last `onPressChange` call, or the initial state if none |
| Card.PressesCountActivations | src/components/card/card.tsx:91-122 | on an active card, `onPress` fires once per click and once per Enter/Space keyup, never otherwise |
| Card.Role | src/components/card/card.tsx:87-88 | `role="button"` is rendered iff the card is clickable and not `asChild` |
| Card.TabIndex | src/components/card/card.tsx:87-89 | `tabIndex=0` is rendered iff the card is clickable, not disabled and not `asChild`; absent otherwise |
| Card.FocusableIffKeyboardPresses | src/components/card/card.tsx:89-108 | a card is in the tab order exactly when an Enter keydown presses it |
| Card.RoundingClasses | src/components/card/card.tsx:379-382 | exactly one rounding class: `rounded-none` under `isCover`, else the one for `radius` |
| Card.ImageClasses | src/components/card/card.tsx:376-387 | exactly one rounding class among the image classes; cover adds `rounded-none` and the absolute fill; the zoom class appears iff `isZoomed` |
| Card.CardImageProps | src/components/card/card.tsx:389-395 | a decorative image gets alt `""` and `aria-hidden`; otherwise its alt is kept and `aria-hidden` is absent |
| Card.WrapperLabel | src/components/card/card.tsx:407 | the `div` wrapper is labelled with the alt iff the image is not decorative |
| ParseInt.RemoveFirst | build-tokens.mjs:8 | `replace('#', '')` removes one character when there is a `#` and leaves a text without one unchanged |
| ParseInt.RemoveFirstRemovesFirst | build-tokens.mjs:8 | the character removed is the first `#`; the text before it and after it is kept, in order |
| ParseInt.ParseIntHex | build-tokens.mjs:9-11 | `parseInt(s, 16)`: the empty text is `NaN`; a text of hex digits only reads as its base-16 value; a text starting with anything but white space, a sign or a hex digit is `NaN` |
| ParseInt.TwoHexDigits | build-tokens.mjs:9-11 | two hex digits parse to `16 * high + low` |
| ParseInt.ShortParseBounds | build-tokens.mjs:9-11 | `parseInt` of at most two characters is `NaN` or an integer in -15..255 |
| ParseInt.ParseIntIgnoresCase | build-tokens.mjs:9-11 | `parseInt(s, 16)` does not depend on the case of ASCII letters |
| BuildTokens.HexToRGBChannels | build-tokens.mjs:7-13 | the channel text never holds a line break, whatever the input |
| BuildTokens.ChannelsSeparated | build-tokens.mjs:12 | for every input the output is three channel texts separated by exactly two spaces |
| BuildTokens.ChannelBounds | build-tokens.mjs:9-11 | for every input each channel is `NaN` or an integer in -15..255 |
| BuildTokens.ValidHex | build-tokens.mjs:7-13 | six hex digits after an optional `#` give `"R G B"`, each the 0..255 value of its digit pair |
| BuildTokens.RoundTrip | build-tokens.mjs:7-13 | reading the channels back as two lower-case hex digits each reproduces the first six digits, lower-cased |
| BuildTokens.IgnoresCase | build-tokens.mjs:8-12 | upper- and lower-case digits give the same output |
| BuildTokens.HashOptional | build-tokens.mjs:8 | the leading `#` is optional |
| BuildTokens.SecondHashKept | build-tokens.mjs:8-9 | only the first `#` is removed; a second one makes the red channel `NaN` |
| BuildTokens.OnlySixRead | build-tokens.mjs:9-11 | only the first six characters after the `#` are read; anything after them is ignored |
| BuildTokens.ShorthandNotExpanded | build-tokens.mjs:9-12 | `#fff` is not expanded: it gives `"255 15 NaN"` |
| BuildTokens.DecodeChannels | build-tokens.mjs:12 | the inverse reading accepts only three byte numerals and yields six hex digits |
| BuildTokens.CssLine | build-tokens.mjs:24-27 | every line starts with the custom-property prefix `  --` |
| BuildTokens.NonColorLineShape | build-tokens.mjs:27 | a token that is not a colour declares its value as it is, with a comment only for a non-empty description |
| BuildTokens.CommentIffColorOrDescribed | build-tokens.mjs:24-27 | a line ends in a comment iff the token is a colour or has a non-empty description |
| BuildTokens.ColorLineChannels | build-tokens.mjs:24-25 | a colour line declares the channels of its value, with the description or an empty comment, and the channels read back to the colour's digits |
| BuildTokens.OneLinePerToken | build-tokens.mjs:22-29 | with no line breaks in names, values or descriptions, the body between `:root {` and `}` splits into exactly the tokens' lines, in order |
| BuildTokens.CssFile | build-tokens.mjs:18-29 | the stylesheet starts with the banner and `:root {` and ends with a line break and `}` |
| BuildTokens.NoTokens | build-tokens.mjs:22-29 | with no tokens the body is empty |
| CopyAssets.MatchesAreOccurrences | scripts/copy-assets.js:26 | the left-to-right scan finds every occurrence of `../assets/fonts/`: since the path cannot overlap itself, the matches are exactly the occurrences |
| CopyAssets.FixFontPaths | scripts/copy-assets.js:26 | the rewrite shortens the stylesheet by 8 characters per occurrence of the old path |
| CopyAssets.NoMatchIffAbsent | scripts/copy-assets.js:26 | the scan finds no match iff the text holds no `../assets/fonts/` |
| CopyAssets.NoPatternLeft | scripts/copy-assets.js:26 | the output holds no `../assets/fonts/`: none survives and none is created |
| CopyAssets.UnchangedWithoutPattern | scripts/copy-assets.js:26 | text without the old path is returned unchanged |
| CopyAssets.Idempotent | scripts/copy-assets.js:26 | running the rewrite twice equals running it once |
| CopyAssets.FontUrls | scripts/copy-assets.js:26 | every occurrence is rewritten: occurrence-free pieces joined by `../assets/fonts/` come out the same pieces joined by `./fonts/` |
| Strings.JoinSplit | src/components/card/feature-card.tsx:82 | joining the pieces of a split on the same character gives back the text |
| Strings.SplitJoin | src/components/card/feature-card.tsx:86-98 | splitting a join of separator-free pieces gives back the pieces |

## Left out

- Class-name composition through `cva` and `cn`, and the variant tables,
  are left out. That is foreign-library semantics (class-variance-authority
  and tailwind-merge). CardImage's classes are modelled before the caller's
  `className` is merged in. `alt` and `className` are taken out of the
  rest props, but an `aria-hidden` among them is spread after the computed
  one and overrides it; that override is not modelled.
- The Radix, react-aria and MUI wrappers are left out: dialog, sheet,
  accordion, navigation menu, table, breadcrumbs, link, button, badge and
  separator. Their behaviour lives in those libraries.
- Token reference resolution is not modelled: `groupTokensByType` does not
  implement it.
- GroupTokens.GroupTokensByType: type and token names that are
  Object.prototype members are not modelled. The source indexes a plain `{}`,
  so a type named `constructor`, `toString` or `__proto__` finds an inherited
  member, gets no own bucket, and its values land on a built-in object. A
  token named `__proto__` is not stored as an own key either. The model gives
  every name its own entry.
- The StyleDictionary build, file reads and writes, logging and
  `process.exit` are I/O. `hexToRGBChannels` and the line format are
  modelled; the token set they read is a parameter.
- Card's document-level Tab listener and focus-visible effect are left out.
  So are user handlers in `...props` that override Card's handlers, React
  state batching, and the browser's synthesis of a click after mouseup.
  Events are modelled one at a time, as delivered.
- `preventDefault` on Enter/Space is not modelled: it affects only the
  browser, not the state or the callbacks.
- The event objects passed to `onPress`, `onPressStart`, `onPressEnd` and
  `onPressUp` are not modelled; a call is recorded by callback name.
- User.Initials, User.InitialsOfWords, User.HeadsOfWords: `toUpperCase` is
  modelled for ASCII letters only; Unicode case mapping, which may change a
  string's length, is left out. `n[0]` and `slice(0, 2)` are modelled on code
  points, while JavaScript takes UTF-16 code units: for a name starting with a
  character outside the Basic Multilingual Plane, such as an emoji, JavaScript
  takes a lone high surrogate where the model takes the whole character.
- User.ImageAlt: an `alt` key present in `avatarProps` with the value
  `undefined` is not distinguished from an absent one.
- ParseInt.ParseIntHex and `substring` work on code points here. JavaScript
  works on UTF-16 code units, so the two differ only for characters outside
  the Basic Multilingual Plane.
- BuildTokens.CssLine takes `token.value` and `token.name` as strings, after
  StyleDictionary's transforms. A colour value that is not a string is not
  modelled.
- Pagination.FirstAndLastPage, Pagination.WindowBounds, Pagination.EllipsisRules,
  Pagination.PagesOrderedAndInRange, Pagination.NeighboursShown, Pagination.NoPageLost
  and Pagination.CurrentPageShownOnce are stated for `1 <= page <= total`. The
  component does not check its `page` prop; its own controls keep the page in
  that range. `GetPages` itself is defined for every pair of integers.
- Static configuration (Tailwind, ESLint, Jest, tsup), the stories and the
  trivial render conditionals of other components are left out.
