# YISUSTV channel catalog: a Dafny model

YISUSTV is a browser IPTV player. Its only logic sits in the `App` component
(`src/App.tsx`), and this project models that logic:

- the extended-M3U playlist parser `parseM3U`;
- the search-and-dropdown filter `filteredChannels`;
- the dropdown options `uniqueValues`;
- the bounded most-recent list `updateRecentChannels`;
- the component state and its transitions: loading a playlist, choosing a channel,
  typing a search term and choosing a dropdown option.

Modules:

- `Wrappers` holds `Option`, used for every field declared with `?`.
- `Types` holds `Channel`, its `tvg` block and `Filter` from `src/types/index.ts`.
- `Text` holds the JavaScript string operations the code uses:
  - `trim`, with the exact set of characters ECMAScript removes;
  - `split` on one character, `startsWith` and `includes`;
  - ASCII `toLowerCase`;
  - the lexicographic order `sort` applies.
- `Seqs` holds `Array.prototype.filter` on sequences. A lemma shows it is the
  subsequence at exactly the indices of the satisfying elements.
- `Extinf` is the matcher for the attribute pattern of `#EXTINF:` lines. It uses
  JavaScript's search semantics:
  - the leftmost start position wins;
  - each greedy `.*` tries the longest gap first, then backtracks;
  - `.` matches anything but a line terminator.

  Lemmas prove it sound and complete against a positional description of a match. They
  also prove it leftmost, and exact when each key occurs once. The module also holds the
  three first-match searches run over the group label.
- `M3U` holds the parser: a fold `Run` of a per-line `Step` over the lines. The method
  `ParseM3U` keeps the source's loop and mutable pending record, and is proved equal to
  the fold. The module's lemmas state the parser's properties.
- `Catalog` holds the filter, the sorted distinct options and the dropdown update of `Filter`.
- `Recent` holds the recent-channels update.
- `AppState` holds the class `App`:
  - its fields are the component's state;
  - its methods are the transitions;
  - its invariant `Valid` says the recent list has at most five entries and distinct
    urls, and no filter field holds `""`.

The network request in `loadPlaylist` becomes a `FetchOutcome` parameter:

- a body that was read;
- a response that is not `ok`;
- a rejection with an `Error` and its message;
- a rejection with any other value.

A note on the fallback name (`src/App.tsx:61-64`): the code tests the second comma field
for emptiness before trimming it. So a field of white space only is accepted, becomes the
empty name, and the channel is dropped when its URL line arrives. The placeholder is used
only when the field is missing or exactly `""`. The model follows the code
(`M3U.FallbackName`, `M3U.BlankFallbackNameDropped`).

## Model

| member | source | states |
|---|---|---|
| Text.TrimStart | src/App.tsx:42 | the result is no longer than the input |
| Text.TrimEnd | src/App.tsx:42 | the result is no longer than the input |
| Text.Trim | src/App.tsx:42 | `trim` never lengthens a string |
| Text.TrimStartSpec | src/App.tsx:42 | the leading part removed is all white space, and what remains is a suffix that does not start with white space |
| Text.TrimEndSpec | src/App.tsx:42 | the trailing part removed is all white space, and what remains is a prefix that does not end with white space |
| Text.TrimSpec | src/App.tsx:42 | the trim is a middle part of the input with only white space on either side, and it neither starts nor ends with white space |
| Text.TrimUnchanged | src/App.tsx:42 | a string with no white space at its two ends is its own trim |
| Text.TrimAllSpace | src/App.tsx:63 | a string of white space only trims to `""` |
| Text.TrimIdempotent | src/App.tsx:42 | trimming twice is trimming once |
| Text.IncludesFrom | src/App.tsx:108 | true exactly when the needle occurs at some index at or after the start |
| Text.Includes | src/App.tsx:108 | `includes` is true exactly when the needle occurs somewhere; the empty needle is always included |
| Text.StartsWith | src/App.tsx:44 | `line.startsWith(prefix)` (also at :66): the prefix is the line's first characters |
| Text.ToLower | src/App.tsx:108 | same length; no capital ASCII letter is left, and each character agrees with the input's up to case |
| Text.ToLowerEqual | src/App.tsx:108 | two strings lower to the same string exactly when they have the same length and agree character by character up to ASCII case |
| Text.ToLowerIdempotent | src/App.tsx:108 | lowering twice is lowering once |
| Text.Split | src/App.tsx:37 | `split` always yields at least one piece |
| Text.SplitSpec | src/App.tsx:37 | no piece contains the separator, and joining the pieces with it gives back the input |
| Text.SplitNoSeparator | src/App.tsx:61 | a string without the separator splits into itself alone |
| Text.SplitAtFirst | src/App.tsx:61 | the first piece runs up to the first separator, and the rest is the split of what follows it |
| Text.SplitJoin | src/App.tsx:37 | splitting a join of separator-free pieces gives the pieces back |
| Text.LessIrreflexive | src/App.tsx:116 | the sort order is irreflexive |
| Text.LessTransitive | src/App.tsx:116 | the sort order is transitive |
| Text.LessTotal | src/App.tsx:116 | any two different strings are ordered one way or the other |
| Text.LessAsymmetric | src/App.tsx:116 | the sort order is asymmetric |
| Text.Less | src/App.tsx:116 | the order the default `sort` puts strings in: code by code, a proper prefix first; its properties are the four lemmas above |
| Seqs.Filter | src/App.tsx:107-113 | the result is no longer than the input; every kept element is from the input and satisfies the predicate; every satisfying element is kept |
| Seqs.FilterSelects | src/App.tsx:107-113 | the result is the input's elements, unchanged, at strictly increasing indices, and these are exactly the indices whose elements satisfy the predicate |
| Seqs.FilterAll | src/App.tsx:29 | a predicate every element satisfies keeps the whole sequence |
| Seqs.FilterAgrees | src/App.tsx:107-113 | predicates that agree on every element give the same result |
| Types.ChannelField | src/App.tsx:116 | `channel[key]` for the three filterable keys |
| Types.FilterField | src/App.tsx:109-111 | `filter[key]` for the three keys |
| Extinf.QuoteFromSpec | src/App.tsx:45 | `[^"]*"` stops at the first quote: none before it, one at it unless the line ends |
| Extinf.LineEndSpec | src/App.tsx:45 | `.*` reaches exactly up to the first line terminator |
| Extinf.GapWithinLineEnd | src/App.tsx:45 | every gap `.*` can take ends at or before the first line terminator |
| Extinf.AttrAtSound | src/App.tsx:45 | an attribute tried at a position captures a real `key"…"` occurrence whose value holds no quote |
| Extinf.AttrAtComplete | src/App.tsx:45 | when `key([^"]*)"` matches at a position, the attempt there returns that capture |
| Extinf.TitleAtSound | src/App.tsx:45 | the title capture is a non-empty run after a comma, up to the end of the line |
| Extinf.TitleAtComplete | src/App.tsx:45 | when `,(.+)` matches at a position, the attempt there returns that capture |
| Extinf.Rest | src/App.tsx:45 | a successful search from a capture group on has one capture for each remaining group |
| Extinf.ScanDown | src/App.tsx:45 | a successful backtracking scan has one capture for each remaining group |
| Extinf.FirstFrom | src/App.tsx:45 | a successful search has five captures, the first at or after its start position |
| Extinf.Locate | src/App.tsx:45 | `line.match(...)` with capture positions: the search from start position 0; its meaning is `LocateSound` and `LocateCompleteAndLeftmost` |
| Extinf.MatchExtinf | src/App.tsx:45-47 | the five captured groups (id, name, logo, group, title) of `line.match(...)`, or none; pinned down by `MatchExact` |
| Extinf.RestSound | src/App.tsx:45 | what the search returns from a group on satisfies the pattern's tail |
| Extinf.ScanSound | src/App.tsx:45 | what the backtracking scan returns satisfies the pattern's tail from its lower bound |
| Extinf.FirstSound | src/App.tsx:45 | what the search from a start position returns is a match of the whole pattern |
| Extinf.LocateSound | src/App.tsx:45 | what `line.match` returns is a match of the whole pattern |
| Extinf.RestComplete | src/App.tsx:45 | when the pattern's tail matches, the search from that group succeeds |
| Extinf.ScanFinds | src/App.tsx:45 | a scan that passes over a working candidate succeeds |
| Extinf.FirstFinds | src/App.tsx:45 | when a match starts at or after a position, the search from there succeeds no later |
| Extinf.LocateCompleteAndLeftmost | src/App.tsx:45 | when the pattern matches the line anywhere, `line.match` succeeds with the leftmost start |
| Extinf.KeyOnce | src/App.tsx:45 | proof helper for `AttrUnique`: each key a capture group needs occurs at most once under `KeysOnce` |
| Extinf.AttrUnique | src/App.tsx:45 | with each key once, an attribute group has only one possible capture |
| Extinf.TitleUnique | src/App.tsx:45 | the title group has one capture at a given comma |
| Extinf.TailUnique | src/App.tsx:45 | with each key once, the tail of the pattern has only one match from a position |
| Extinf.MatchUnique | src/App.tsx:45 | with each key once, the pattern has only one match in the line |
| Extinf.MatchExact | src/App.tsx:45-47 | with each key once, `line.match` returns exactly that match's five captures |
| Extinf.NoQuoteNoMatch | src/App.tsx:45-46 | a line without a double quote never matches |
| Extinf.TailHasKey | src/App.tsx:45 | proof helper for `MissingKeyNoMatch`: a match of the pattern's tail holds the key of every later group |
| Extinf.MissingKeyNoMatch | src/App.tsx:45-46 | a line missing any one of `tvg-id="`, `tvg-name="`, `tvg-logo="`, `group-title="` never matches, so it takes the fallback form |
| Extinf.DigitsEndSpec | src/App.tsx:58 | the digit run from a position ends at the first non-digit |
| Extinf.FindCountry | src/App.tsx:56 | a position found holds `[A-Z]{2}` and is at or after the start |
| Extinf.FindLanguage | src/App.tsx:57 | a position found holds `[a-z]{3}` and is at or after the start |
| Extinf.FindQuality | src/App.tsx:58 | a position found holds `\d+p` and is at or after the start |
| Extinf.FindCountryFirst | src/App.tsx:56 | no `[A-Z]{2}` occurs before the position found, or anywhere if none is found |
| Extinf.FindLanguageFirst | src/App.tsx:57 | no `[a-z]{3}` occurs before the position found, or anywhere if none is found |
| Extinf.FindQualityFirst | src/App.tsx:58 | no `\d+p` occurs before the position found, or anywhere if none is found |
| Extinf.GroupCountry | src/App.tsx:56 | `group.match(/[A-Z]{2}/)?.[0]`; its meaning is `GroupCountrySpec` |
| Extinf.GroupLanguage | src/App.tsx:57 | `group.match(/[a-z]{3}/)?.[0]`; its meaning is `GroupLanguageSpec` |
| Extinf.GroupQuality | src/App.tsx:58 | `group.match(/\d+p/)?.[0]`; its meaning is `GroupQualitySpec` |
| Extinf.GroupCountrySpec | src/App.tsx:56 | the country is unset exactly when the group has no two capitals in a row; otherwise it is the leftmost pair |
| Extinf.GroupLanguageSpec | src/App.tsx:57 | the language is unset exactly when the group has no three lower-case letters in a row; otherwise it is the leftmost run of three |
| Extinf.GroupQualitySpec | src/App.tsx:58 | the quality is unset exactly when no digits are followed by `p`; otherwise it is the whole leftmost digit run with its `p` |
| Extinf.GroupExample | src/App.tsx:56-58 | the group `AR;spa;720p` gives country `AR`, language `spa` and quality `720p` |
| M3U.ExtendedRecord | src/App.tsx:47-59 | the record of a matching line: trimmed title as name, the `tvg` block, the raw group as category and the three group searches |
| M3U.FallbackRecord | src/App.tsx:61-64 | the record of any other `#EXTINF:` line: only a name, from the second comma field; its meaning is `FallbackName` |
| M3U.ExtinfRecord | src/App.tsx:44-65 | the record that replaces the pending one on an `#EXTINF:` line always has a name and never a url |
| M3U.IsExtinfLine | src/App.tsx:44 | a trimmed line starting with `#EXTINF:` |
| M3U.IsUrlLine | src/App.tsx:66 | a trimmed line starting with `http` that is not an `#EXTINF:` line (the branches are tried in that order) |
| M3U.Ignored | src/App.tsx:44-72 | every other trimmed line: neither branch is taken |
| M3U.Complete | src/App.tsx:68 | `currentChannel.name && currentChannel.url`: both present and not `""` |
| M3U.ToChannel | src/App.tsx:69 | `currentChannel as Channel`: the pending fields copied into a channel, with no top-level logo |
| M3U.Emitted | src/App.tsx:67-71 | a URL line appends at most one channel, exactly when the pending name is present and non-empty, and that channel carries the pending name and the url |
| M3U.Step | src/App.tsx:41-72 | one line only appends to the output, at most one channel and only on a URL line; an ignored line changes nothing; a URL line empties the pending record |
| M3U.Run | src/App.tsx:41-73 | the fold of `Step` over the lines from the empty state; its properties are the lemmas below |
| M3U.Parse | src/App.tsx:36-76 | every channel has a non-empty name and a url starting with `http`, and there are no more channels than URL lines |
| M3U.RunSnoc | src/App.tsx:41-74 | proof helper: the fold over one more line is one more step |
| M3U.ParseM3U | src/App.tsx:36-76 | the loop over the trimmed lines, with its mutable pending record and pushes, returns exactly the fold `Parse` |
| M3U.EmittedWellFormed | src/App.tsx:66-71 | every channel emitted has a non-empty name, and a url that is a whole trimmed URL line of the input starting with `http`; the pending record never carries a url from one line to the next |
| M3U.AtMostOnePerUrlLine | src/App.tsx:66-71 | there are no more channels than URL lines |
| M3U.OutputGrows | src/App.tsx:69 | the output after a prefix of the lines is a prefix of the final output, so channels come in the order of their URL lines |
| M3U.OrphanUrlDropped | src/App.tsx:66-71 | a URL line with no `#EXTINF:` line since the previous URL line (or the start) emits nothing |
| M3U.PendingStaysEmpty | src/App.tsx:71 | the pending record stays empty from a URL line until the next `#EXTINF:` line |
| M3U.PendingAfterExtinf | src/App.tsx:44-65 | after an `#EXTINF:` line and any number of ignored lines, its record is pending and nothing has been appended |
| M3U.PairedEmits | src/App.tsx:44-71 | an `#EXTINF:` line and the next URL line, with only ignored lines between, append exactly what that record and url give |
| M3U.PairEmits | src/App.tsx:44-71 | an `#EXTINF:` line directly followed by a URL line appends just what that record and url give (a case of `PairedEmits`) |
| M3U.LaterExtinfWins | src/App.tsx:44-65 | when an `#EXTINF:` line is followed, through ignored lines only, by a second one that pairs with a URL line, the URL line appends what the second alone gives and the first adds nothing |
| M3U.FallbackName | src/App.tsx:61-64 | the fallback name is the trimmed second comma field, or the placeholder when that field is `""`; nothing else is set |
| M3U.FallbackNoComma | src/App.tsx:61-64 | a line without a comma gets the placeholder name and nothing else |
| M3U.BlankFallbackNameDropped | src/App.tsx:61-68 | a second field of white space only gives the empty name, and its URL line then emits nothing |
| M3U.ExtendedLine | src/App.tsx:45-58 | with each key once, the record is the trimmed title as name (not `tvg-name`), the `tvg` block, the raw group as category and the three group searches |
| M3U.ExtendedChannel | src/App.tsx:45-71 | an extended line paired with a URL line (ignored lines between allowed) appends the channel with exactly those fields, the url and no top-level logo; nothing when the trimmed title is empty |
| M3U.FallbackChannel | src/App.tsx:60-71 | an `#EXTINF:` line the attribute pattern does not match, paired with a URL line (ignored lines between allowed), appends a channel with only the fallback name and the url; nothing when that name is empty |
| Catalog.FilteredChannels | src/App.tsx:107-113 | every channel kept is in the list and passes all four tests; every channel that passes them is kept |
| Catalog.Visible | src/App.tsx:108-112 | the four conjuncts: the lowered name includes the lowered term, and each dropdown field is unset (`!filter[key]`) or equal to the channel's |
| Catalog.Unset | src/App.tsx:109-111 | `!filter[key]`: the field is absent or `""` |
| Catalog.FieldAccepts | src/App.tsx:109-111 | the field is unset in the filter, or the channel's value equals the filter's (`have === want`) |
| Catalog.MatchesSearch | src/App.tsx:108 | the lowered name includes the lowered search term |
| Catalog.FilteredIsSubsequence | src/App.tsx:107-113 | the filtered list is the channel list's subsequence, unchanged and in order, at exactly the indices of the channels that pass |
| Catalog.EmptyTermMatches | src/App.tsx:108 | the empty search term matches every name |
| Catalog.NoFilterShowsAll | src/App.tsx:107-113 | with an empty term and no dropdown value chosen, the filtered list is the whole list |
| Catalog.SearchIgnoresCase | src/App.tsx:108 | searching for the lowered term gives the same list as the term itself |
| Catalog.StrictlySortedDistinct | src/App.tsx:116 | a strictly sorted list has no duplicates |
| Catalog.InsertSorted | src/App.tsx:116 | inserting keeps the list strictly sorted, and adds exactly the new value |
| Catalog.Offered | src/App.tsx:116 | `filter(Boolean)` on one field: the value when present and not `""` |
| Catalog.UniqueValues | src/App.tsx:115-117 | the options are strictly sorted, so free of duplicates, and are exactly the present, non-empty values of that field across all channels |
| Catalog.HeadLeast | src/App.tsx:116 | proof helper for `SortedUnique`: the head of a strictly sorted list is below every other element |
| Catalog.NonEmptyIn | src/App.tsx:116 | proof helper for `SortedUnique`: a sequence holding every element of a non-empty one is non-empty |
| Catalog.SortedUnique | src/App.tsx:115-117 | two strictly sorted lists with the same elements are equal |
| Catalog.OptionsDependOnValuesOnly | src/App.tsx:115-117 | the options depend only on which values are offered, not on order or multiplicity |
| Catalog.WithOption | src/App.tsx:208 | the chosen field takes the value, `""` unsets it, and the other two fields are kept |
| Catalog.ClearedFilterShowsAll | src/App.tsx:208-228 | setting all three dropdowns to their first option, with an empty term, shows every channel |
| Recent.Take | src/App.tsx:30 | `slice(0, n)` is a prefix of at most `n` elements, and the whole sequence when it has fewer than `n` |
| Recent.WithoutUrl | src/App.tsx:29 | `prev.filter(ch => ch.url !== url)`: the previous entries with another url, in order (via `Seqs.Filter`) |
| Recent.UpdateRecent | src/App.tsx:27-34 | the chosen channel heads the list; at most five entries; the rest are the previous entries with other urls, in order, cut to fit; no other entry has its url |
| Recent.TailKeepsOrder | src/App.tsx:29-30 | the kept previous entries stand at strictly increasing positions of the previous list |
| Recent.UpdateKeepsDistinct | src/App.tsx:27-34 | a list with distinct urls keeps them distinct |
| Recent.ReselectHead | src/App.tsx:27-34 | choosing the head again, when no later entry shares its url, changes nothing |
| Recent.UpdateIdempotent | src/App.tsx:27-34 | choosing the same channel twice in a row is the same as choosing it once |
| Recent.UpdateFresh | src/App.tsx:27-34 | a channel whose url is new goes in front, and the list is cut to five |
| Recent.TakeCons | src/App.tsx:30 | proof helper for `SelectDistinct`: cutting before or after putting one element in front gives the same list |
| Recent.Reverse | src/App.tsx:27-34 | specification helper for `SelectDistinct`: the reversal holds the same elements in the opposite order |
| Recent.SelectDistinct | src/App.tsx:27-34 | choosing channels with distinct urls one after another from the empty list leaves the last five chosen, newest first |
| AppState.ErrorOf | src/App.tsx:83-88 | no message exactly when the body was read; a rejection with an `Error` stores its message |
| AppState.App.constructor | src/App.tsx:11-18 | the initial state: no channels, nothing selected, not loading, no error, empty term and filter, no recent channels |
| AppState.App.VisibleChannels | src/App.tsx:107-113 | `filteredChannels` over the current channels, term and filter |
| AppState.App.FilterOptions | src/App.tsx:115-117 | `uniqueValues(key)` over the current channel list alone |
| AppState.App.StartLoad | src/App.tsx:79-80 | loading starts and the error is cleared; nothing else changes; the invariant holds |
| AppState.App.FinishLoad | src/App.tsx:81-92 | a body replaces the channels with its parse; a failure keeps them and stores its message; loading ends; nothing else changes; the invariant holds |
| AppState.App.LoadPlaylist | src/App.tsx:78-93 | after the request, the channels are the parse of a body or unchanged, the error is exactly the outcome's message, loading is over, and the invariant holds |
| AppState.App.SelectChannel | src/App.tsx:99-105 | the channel is selected and the recent list is updated; the invariant holds |
| AppState.App.SetSearchTerm | src/App.tsx:95-97 | the search term is replaced; nothing else changes |
| AppState.App.ChooseOption | src/App.tsx:208-228 | the filter gets the dropdown update; nothing else changes; no filter field is ever `""` |

## Left out

- The network request, `response.text()`, `async`/`await` and `console.error` in
  `loadPlaylist`. Their outcome is the parameter `FetchOutcome` of `App.FinishLoad` and
  `App.LoadPlaylist`.
- Reading and writing the recent list in `localStorage` (src/App.tsx:20-25, 31). It is browser
  persistence, so the constructor starts from the empty list.
- lodash `debounce` (src/App.tsx:95-97): timers. `App.SetSearchTerm` is the call that runs
  once it fires.
- Closing the sidebar on narrow windows (src/App.tsx:102-104), the sidebar toggle and all JSX.
- `src/components/VideoPlayer.tsx`, `src/components/ChannelList.tsx` and
  `src/components/Logo.tsx` are rendering and media-library code. `src/constants/index.ts`
  holds only URLs and labels. None of them is part of this model.
- `Text.ToLower`: lowers ASCII letters only, not Unicode `toLowerCase`.
- `Text.Less`: orders strings by character code, not by UTF-16 code units as the default
  `sort` does. The two orders differ only for characters outside the Basic Multilingual Plane.
- `Extinf.MatchExact`: pins down what `line.match` returns only when each of the four keys
  occurs at most once in the line. For other lines, what `Extinf.LocateSound` and
  `Extinf.LocateCompleteAndLeftmost` establish is that the result is a match with the
  leftmost start.
