# ShowMeYourName label composer, in Dafny

The ShowMeYourName plugin for the Vencord Discord client replaces the author
name of a chat message with a label built from three values: the user's
username (or global display name), the member's nickname, and the numeric
user id. A `mode` setting picks the order. In most modes a suffix span
styles whichever of the two names comes second; in "nick-id-user" it styles
the id instead, and "id-user", "user" and "user-id" have no suffix span. The
logic sits in `renderUsername`. It resolves the user
(`userOverride ?? message.author`) and picks the effective username. It
chooses an optional `"@"` mention prefix, then runs a "collapse" test that
only returns for mode `"user-id"`. After that a chain of mode checks runs,
where the first match wins, and ends in a default. A `catch` replaces the
whole label with the raw nickname when anything throws.

The model has three files:

- `wrappers.dfy`: module `Wrappers`, the `Option` type used for every field
  that JavaScript may find `undefined` or `null`.
- `show_me_your_name.dfy`: module `ShowMeYourName`.
  - The inputs: `User`, `Author`, `Props` and `Settings`.
  - The output: a sequence of `Segment`s. A segment is `Plain(text)`,
    `Suffix(inner)` for the `vc-smyn-suffix` span, or `Id(text)` for the
    `vc-smyn-id` span.
  - `ComposeLabel` follows the `try` block branch by branch. A thrown
    `TypeError` becomes the explicit result `Threw(fault)`.
    `RenderUsername` adds the `catch` fallback.
  - `Layout` and `Fill` are an independent, table-shaped description of each
    mode's output. `Faults` states when the `try` block throws.
- `label_properties.dfy`: module `LabelProperties`, the lemmas. The central
  one, `RenderUsernameMeetsTable`, proves that the branch chain equals the
  table on every input. The prefix, id, name-count, suffix, collapse and
  fallback properties follow from it.

Decisions the model makes explicit:

- `a && b || c` on line 81 of `index.tsx` parses as `(a && b) || c`. The case-insensitive
  comparison `c` runs only when the message is not a reply preview while
  `inReplies` is off. Only then can a missing username or nickname throw.
- The `if` on line 81 has no braces. Its body is only the nested
  `if (mode === "user-id")`, so for every other mode the chain continues.
  The collapse branch returns exactly what the default returns, so a call
  that does not throw renders a label that depends neither on the comparison
  nor on the reply flags (`CollapseBranchIsDefault`, `ReplyFlagsIrrelevant`).
  The reply flags do decide whether the comparison runs, and so whether a
  missing name throws.
- JSX renders an `undefined` child and the empty string the same way: as
  nothing. A missing name that is never compared is therefore shown as
  `Plain("")`. The empty prefix is left out of the sequence.
- A missing `message` object and a message whose `author` is missing are
  both given as `messageAuthor == None`. Either one throws when there is no
  `userOverride`.
- A missing user or a missing `author` throws whatever the flags. A missing
  username or nickname reaches the `catch` only when the comparison on
  line 81 runs. In a reply preview while `inReplies` is off, it renders as
  empty text instead (`SkippedComparisonTolerates`).
- The `inReplies` setting is described as "Also apply functionality to reply
  previews" (index.tsx line 49), but it changes no label that renders
  (`ReplyFlagsIrrelevant`): reply previews get the full mode layout either
  way. The setting only decides whether a missing name throws.
- Two entries of the mode select list do not describe what the code renders.
  "user" is labelled "Username only" (index.tsx line 38), yet the default arm
  on line 113 still appends the id span (`UsernameThenId`, `IdSegment`).
  "user-nick" is labelled "Username then nickname" (line 35), yet line 105
  also renders the id span, so its output is identical to "user-nick-id"
  (`UserNickIsUserNickId`). The model follows the code.
- In the collapse case, the nick-bearing modes still show the real nickname,
  even when it equals the username ignoring case.
- `renderUsername` is a pure function of its props and a settings snapshot.
  Calling it twice with the same inputs gives the same label. In Dafny this
  holds because `RenderUsername` is a function.

## Model

| member | source | states |
|---|---|---|
| `ShowMeYourName.RenderUsername` | ShowMeYourName/index.tsx:69-117 | The sequence of children always has at least one element, and at least two when the try block does not throw. |
| `ShowMeYourName.ToLower` | ShowMeYourName/index.tsx:81 | Lower-casing keeps the length and maps each ASCII capital to its small letter, leaving every other character alone. |
| `LabelProperties.RenderUsernameMeetsTable` | ShowMeYourName/index.tsx:70-116 | The try block throws exactly when `Faults` holds, and then the label is the raw nickname alone. Otherwise the label is the optional "@" followed by the mode's row of the table. The collapse comparison plays no part. |
| `LabelProperties.ModeChainMeetsTable` | ShowMeYourName/index.tsx:86-113 | For every mode string, the chain of mode checks returns the prefix followed by that mode's row of the table, with the default row for any mode no check matches. |
| `LabelProperties.LayoutTallies` | ShowMeYourName/index.tsx:84-113 | Every mode shows the username once. It shows the id once except in "nick-user". It shows the nickname once, with exactly one suffix span, in the eight nick-bearing modes, and neither in the others. |
| `LabelProperties.UnknownModesUseDefault` | ShowMeYourName/index.tsx:24-113 | A mode outside the select list gets the layout of "user" and "user-id": username, then id. |
| `LabelProperties.FaultsIgnoreMode` | ShowMeYourName/index.tsx:71-83 | Whether the try block throws never depends on the mode setting: changing only the mode leaves a throwing call throwing and a rendering call rendering. |
| `LabelProperties.UserNickIsUserNickId` | ShowMeYourName/index.tsx:104-111 | "user-nick" and "user-nick-id" give the same label on every input. |
| `LabelProperties.CollapseBranchIsDefault` | ShowMeYourName/index.tsx:81-113 | "user-id" renders exactly like "user" and like any unknown mode, whatever the reply flags and names. The collapse branch returns exactly what the default returns. |
| `LabelProperties.ReplyFlagsIrrelevant` | ShowMeYourName/index.tsx:81-113 | Two calls that do not throw, and differ only in `isRepliedMessage` and `inReplies`, give the same label. |
| `LabelProperties.UsernameThenId` | ShowMeYourName/index.tsx:83-113 | "user", "user-id" and unknown modes show the optional "@", the effective username, then the id span. |
| `LabelProperties.UsernameResolution` | ShowMeYourName/index.tsx:71-76 | The shown values come from the override user if there is one, else from the message author. The global name replaces the username when display names are on and it is non-empty. The nickname is the author's, never substituted. |
| `LabelProperties.DisplayNamesChangeOnlyUsername` | ShowMeYourName/index.tsx:72-113 | For two calls that do not throw and differ only in the display-names setting, the labels have the same length and differ only at username slots: the prefix, the nickname and the id are unchanged. |
| `LabelProperties.MentionPrefix` | ShowMeYourName/index.tsx:77-113 | With a mention prefix, the first child is exactly "@" and the rest are the mode's slots in order. Without one, every child is a mode slot, so no prefix text appears. |
| `LabelProperties.IdSegment` | ShowMeYourName/index.tsx:79-113 | Exactly one id span appears, except in "nick-user" where there is none. Every id span holds the user's id unchanged. |
| `LabelProperties.NameCounts` | ShowMeYourName/index.tsx:84-113 | When username, nickname, id and "@" are distinct texts: the username appears exactly once. The nickname appears once in the nick-bearing modes and never in "id-user", "user", "user-id" or unknown modes. |
| `LabelProperties.SuffixStyling` | ShowMeYourName/index.tsx:86-111 | The nick-bearing modes have exactly one suffix span and the others none. Only "nick-id-user" puts the id in it, and there the label ends with the suffixed id followed by the bare username. |
| `LabelProperties.ComparedMissingNickFallsBack` | ShowMeYourName/index.tsx:81-115 | When the comparison runs and the nickname is missing, the label is the fallback: a single empty segment. |
| `LabelProperties.MissingUserFallsBack` | ShowMeYourName/index.tsx:71-115 | With neither an override user nor a message author, the label is only the author's nickname, or empty text when there is none. |
| `LabelProperties.SkippedComparisonTolerates` | ShowMeYourName/index.tsx:81-113 | In a reply preview while `inReplies` is off, missing names do not throw. The label is the mode's layout, with missing names shown as empty text. |
| `LabelProperties.AliceNickFirstExamples` | ShowMeYourName/index.tsx:86-108 | Concrete labels for username "alice", nickname "Al" and id "123456789", without a prefix, in "nick-user-id", "nick-id-user" and "nick-user". |
| `LabelProperties.AliceIdFirstExamples` | ShowMeYourName/index.tsx:89-102 | The same values in "id-user-nick", "id-nick-user" and "id-user". |
| `LabelProperties.AliceUserFirstExamples` | ShowMeYourName/index.tsx:81-113 | The same values in "user-id-nick", "user-nick", "user-nick-id", "user-id" and "user". |
| `LabelProperties.CollapseExamples` | ShowMeYourName/index.tsx:81-84 | "Bob" with nickname "bob" in "user-id" renders as username then id, with no nickname, both inside and outside a reply preview. |
| `LabelProperties.DisplayNameExample` | ShowMeYourName/index.tsx:73-105 | With display names on, the global name "Bobby" replaces "bob123" in the username role, after the "@" prefix. |

## Left out

- `ShowMeYourName.ToLower`: JavaScript's `toLowerCase` maps all of Unicode; the model folds only ASCII `A`-`Z`. The comparison's result cannot change a label, because `RenderUsernameMeetsTable` shows that a call which does not throw renders the same label either way; whether the comparison throws depends only on a name being missing, not on case folding.
- The `ErrorBoundary.wrap(..., { noop: true })` wrapper is not modelled. It is a host React component, and only the local `catch` belongs to this logic.
- The patch descriptor is not modelled. It rewrites the host's `BaseUsername` bundle with a regular expression and has no behaviour of its own to verify.
- `definePluginSettings`, the settings store and its reactivity are not modelled. The settings are a `Settings` value passed to each call. The select list's several `default: true` flags decide the mode the store holds until the user picks one; that default mode reaches the model as part of the `Settings` input.
- JSX element construction and the CSS in `styles.css` are not modelled. They are replaced by the `Segment` datatype. The `discord-types` `Message` and `User` shapes are reduced to the fields the composer reads.
- The user id is assumed present and is modelled as a `string`. A missing id would only render as an empty id span.
