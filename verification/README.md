# Luna: a verified model of its engines

The repository is a collection of small engines for server-rendered, reactive web pages. This
project models the stateful and algorithmic ones in Dafny 4.11 and proves what they are for.

| module | models |
|---|---|
| `Reactivity`, `Signals` | automatic dependency tracking of the web-component runtime, as a state machine and as objects |
| `ObjectHeap`, `Text`, `Store` | `createStore`: an object mutated in place and a cache of signals per path |
| `Factorize` | factoring shared CSS declarations into utility classes |
| `StringSearch`, `Utf16` | substring search, code points and character offsets of the compiled string library |
| `RoutePaths`, `RouteMatch`, `RouteCompile` | path normalization, route matching and the route-tree compiler |
| `Crawler` | the breadth-first crawl frontier |
| `Navigation`, `ChunkLoader` | stale-while-revalidate navigation, and chunk and segment loading, as step machines |
| `Parts` | marker-delimited ranges of sibling nodes |
| `Scroll` | the bounded map of scroll positions mirrored to storage |
| `Escape` | escaping into literals, attributes and page state, and the readers that undo it |
| `Coverage` | merging coverage reports and their totals |

Code that updates fields is modelled by classes whose methods are proved against specification
functions; the laws are lemmas about those functions or invariants that every method keeps. Waiting
code is a state machine whose events are the stretches between two waits; its class methods are
proved to take exactly the machine's steps.

Some promises hold only under a condition, which is then proved to be the exact one: an effect stays
current in every run if and only if its untracked reads do no harm; every cached signal of a store
stays right, as long as values that are set share no object with the rest of it, if and only if no
cached ancestor had to be created and no proxy of a moved object left out a changing key; a cached
page lives its full time if and only if no earlier timer is pending; stepwise normalization of route
prefixes agrees with normalizing whole chains if and only if every append is safe; a matching route
needs patterns without nameless parameters; page state survives its escaping if and only if it does
not contain an escape sequence itself; the path just saved survives a cleanup unless the map was
oversized and the path old. Where a promise fails, a concrete run or input shows it.

The comment on `createStore` says that ancestors need no notification because their object is the
same; where objects had to be created on the way that is not so, and the model follows the code.

Verify with `dafny verify dfyconfig.toml`.

## Model

| member | source | states |
|---|---|---|
| `Reactivity.StaysCurrent` | js/wcr/src/signal.ts:19-98 | The exact condition for effects: those with a given body show in every run what a re-run would produce, if and only if the body's untracked reads do no harm, that is, two value lists agreeing on what it reads with tracking give the same output |
| `Reactivity.RunsStayCurrent` | js/wcr/src/signal.ts:19-85 | After any run of signal and closure creation, set, update, subscribe, unsubscribe and dispose, every live effect with such a body last produced what its body yields on the current signal values, although only subscribers are re-run and reads are conditional |
| `Reactivity.RunIsFinal` | js/wcr/src/signal.ts:19-85 | Every run keeps the invariant and ends with exactly the signal values and the closures (bodies, kinds, disposals) that its commands asked for |
| `Reactivity.StepIsFinal` | js/wcr/src/signal.ts:19-85 | Each single command does |
| `Reactivity.SetGood` | js/wcr/src/signal.ts:27-31 | A changing set re-runs the live subscribers of that signal and nobody else, leaves every live effect up to date, and keeps every subscriber in its place, new ones last; a value `===` to the old one runs nothing |
| `Reactivity.RunAllGood` | js/wcr/src/signal.ts:47-53 | Notifying a copied list runs its live members in order and brings whatever was out of date among them up to date, although runs add subscriptions meanwhile, always at the end of the lists |
| `Reactivity.RunOneGood` | js/wcr/src/signal.ts:63-77 | A run brings its own effect up to date and disturbs no other |
| `Reactivity.LiveOnce` | js/wcr/src/signal.ts:47-53 | A subscriber list without duplicates makes each live subscriber run exactly once, the earlier one first, and no disposed one |
| `Reactivity.SubscribedIs` | js/wcr/src/signal.ts:19-25 | A tracked evaluation subscribes to exactly the signals it reads; in each of their lists those who were there keep their places and a new subscriber is last; nothing else changes |
| `Reactivity.OutsideDependenciesIrrelevant` | js/wcr/src/signal.ts:59-85 | Changing signals that an evaluation did not read with tracking changes neither its outcome nor what it reads |
| `Reactivity.ChangeElsewhere` | js/wcr/src/signal.ts:27-31 | A signal that does not notify an effect can change without the effect having to run again |
| `Reactivity.AddSignalGood` | js/wcr/src/signal.ts:11-17 | A new signal disturbs no existing effect |
| `Reactivity.DisposeGood` | js/wcr/src/signal.ts:81-84 | The first dispose leaves every returned cleanup called exactly once and no other effect touched |
| `Reactivity.LiveIsCurrent` | js/wcr/src/signal.ts:19-85 | The invariant means: the last output equals the body evaluated now |
| `Reactivity.PeekFreeHarmless` | js/wcr/src/signal.ts:37-39 | A body without untracked reads meets the condition |
| `Reactivity.HarmGoesStale` | js/wcr/src/signal.ts:90-98 | For any body that does not, and any two value lists that show it, a run after which its live effect shows something else than a re-run would produce |
| `Reactivity.PeekGoesStale` | js/wcr/src/signal.ts:90-98 | For example: create a signal, make an effect that peeks it, set the signal |
| `Signals.Execute` | js/wcr/src/signal.ts:11-85 | The objects take exactly the steps of the state machine in every run: they end with the commanded closures, and each live effect whose untracked reads do no harm has the output that re-running everything would give |
| `Signals.RunAllOf` | js/wcr/src/signal.ts:11-85 | Over any run the objects are in exactly the machine's state, subscriber lists and order of runs included |
| `Signals.Perform` | js/wcr/src/signal.ts:11-85 | Each command on the objects is the state machine's step, new closures being new objects |
| `Signals.Reactor.Set` | js/wcr/src/signal.ts:27-31 | The machine's step: nothing for a value `===` to the old one; otherwise the live subscribers run, each once and the earlier subscriber first, and every list keeps its members in their places |
| `Signals.Reactor.Update` | js/wcr/src/signal.ts:33-35 | Sets to the function of the current value, with the same guarantee, order of runs and places of subscribers included |
| `Signals.Reactor.Notify` | js/wcr/src/signal.ts:47-53 | Runs the members of a copy of the subscriber list one after the other |
| `Signals.Reactor.Run` | js/wcr/src/signal.ts:63-77 | A disposed effect does not run; a live one takes the machine's run step, and the tracked effect is restored |
| `Signals.Reactor.RunBody` | js/wcr/src/signal.ts:66-76 | The previous cleanup is called, then the body on the current values, and its output and cleanup are kept |
| `Signals.Reactor.Call` | js/wcr/src/signal.ts:19-25 | Executing a body yields its value on the current signals, and a tracked effect is subscribed to every signal that was read on the way, in that order |
| `Signals.Reactor.ReadSignal` | js/wcr/src/signal.ts:19-39 | A tracked read subscribes the current effect to that signal only; an untracked one changes nothing |
| `Signals.Signal.Get` | js/wcr/src/signal.ts:19-25 | Returns the value; the effect being tracked is among the subscribers afterwards, last if it is new, and all others keep their places |
| `Signals.Reactor.NewSignal` | js/wcr/src/signal.ts:11-17 | A new signal without subscribers, after the others |
| `Signals.Reactor.NewEffect` | js/wcr/src/signal.ts:59-85 | The body runs at once, alone; its output is its value now |
| `Signals.Reactor.NewCallback` | js/wcr/src/signal.ts:41 | A callback exists before it is subscribed, as one function object |
| `Signals.Reactor.SubscribeCallback` | js/wcr/src/signal.ts:41-45 | The callback joins the signal's subscribers at the end unless it is there already, and runs at once, untracked |
| `Signals.Reactor.UnsubscribeCallback` | js/wcr/src/signal.ts:44 | Takes the callback out of that signal's list only, the others in their order, and leaves every effect up to date |
| `Signals.Reactor.Dispose` | js/wcr/src/signal.ts:81-84 | The effect no longer runs; the first call leaves every returned cleanup called exactly once, a second call runs a remaining cleanup again |
| `Signals.Subscriber.CallCleanup` | js/wcr/src/signal.ts:67 | Calls the cleanup that is held, if there is one, and no other |
| `Signals.Subscriber.Keep` | js/wcr/src/signal.ts:73 | Keeps the output and, for an effect, the returned cleanup of a run |
| `Text.SplitJoin` | js/luna/src/index.ts:631-678 | For segments free of the separator, splitting a joined path gives the path back |
| `Text.JoinSplit` | js/luna/src/index.ts:678 | Joining the pieces of any key gives the key back |
| `Text.KeyBelowPath` | js/luna/src/index.ts:677 | `key.startsWith(path + ".")` holds exactly if the path is a strict prefix of the key's path, and the keys are equal exactly if the paths are |
| `ObjectHeap.AssignSlot` | js/luna/src/index.ts:662 | One assignment into a tree of objects: paths below the slot walk the new value, all others are unchanged, and the result is a tree again |
| `ObjectHeap.WriteOffPath` | js/luna/src/index.ts:640-647 | A walk that does not pass the written slot is not affected |
| `Store.RefreshIsEnough` | js/luna/src/index.ts:665-686 | The central law of the store: re-reading only the written path and what lies below it keeps every cached signal equal to the value at its path, ancestors included, if and only if no ancestor that had to be created was cached |
| `Store.SetThenGet` | js/luna/src/index.ts:640-663 | After an assignment its path leads to the assigned value |
| `Store.IncomparableUnchanged` | js/luna/src/index.ts:650-663 | Paths neither above nor below the written one keep their values, also when intermediate objects were created |
| `Store.AncestorUnchanged` | js/luna/src/index.ts:666-676 | An ancestor keeps the identical object exactly if it existed |
| `Store.CreateMissing` | js/luna/src/index.ts:655-659 | Creating a missing object on the way keeps the tree shape and everything else in place; the new object has nothing in it |
| `Store.FinishAssignment` | js/luna/src/index.ts:662 | The last assignment of the walk, together with the objects created on the way, has exactly the stated effect on every path |
| `Store.NotBlocked` | js/luna/src/index.ts:653-661 | A walk that got through met no primitive |
| `Store.SpreadLinkable` | js/luna/src/index.ts:763-771 | `{...current, ...value}` is a tree that can be linked in place of the current object |
| `Store.MergeKeepsTree` | js/luna/src/index.ts:739-749 | Merging a separate object into the root keeps the tree shape |
| `Store.AssignThenRefresh` | js/luna/src/index.ts:712-718 | After an assignment at one path and a refresh of another, the cache is right if and only if the cached keys at or below the assigned path that were not refreshed hold the new values already |
| `Store.AliasGoesStale` | js/luna/src/index.ts:665-686 | The tree shape is needed: with one object at two paths, a changing write through one leaves a signal cached through the other wrong |
| `Store.Store.GetValueAtPath` | js/luna/src/index.ts:640-647 | The loop computes the value a path leads to, undefined past null or undefined |
| `Store.Store.GetSignal` | js/luna/src/index.ts:630-637 | The first read caches the current value; in a coherent store every read of a path of dot-free keys gives the value at the path |
| `Store.Store.NotifyPath` | js/luna/src/index.ts:667-686 | Exactly the signals at or below the path are re-read |
| `Store.Store.NotifyAll` | js/luna/src/index.ts:743-748 | Every signal is right afterwards, whatever it held |
| `Store.Store.Descend` | js/luna/src/index.ts:654-660 | One step of the walk: an existing object, a created one, or a primitive at which the assignment throws with nothing changed. What is created is an array exactly if the next key is one or more decimal digits, and existing objects keep their kind |
| `Store.Store.SetValueAtPath` | js/luna/src/index.ts:650-663 | Throws exactly if a strict prefix of the path holds a primitive, and then nothing has changed; otherwise the value is at the path, ancestors keep their objects, missing ones are created empty, as arrays exactly before keys of digits, and no other path changes |
| `Store.Store.NewValue` | js/luna/src/index.ts:752-774 | The value to assign, new or as given, can be linked at the path without aliasing; Store.Merged and Store.Replaced say what it means |
| `Store.Store.SetState` | js/luna/src/index.ts:723-781 | If the path led to an object that is no array and the argument is one too, then below the path every key of the argument leads where it does in the argument and every other key where it did before; in every other case the path holds exactly the argument or the updater's result. Created intermediates are arrays exactly before keys of digits, and existing objects keep their kind. From a coherent store it leads to a coherent one if and only if it throws or created no ancestor that was cached |
| `Store.Store.SetRoot` | js/luna/src/index.ts:739-749 | Every key of the merged object leads where it does there, every other key where it did before, and every cached signal is right, stale ones included |
| `Store.Store.SetRootIgnored` | js/luna/src/index.ts:651 | A root-level updater function leaves the object as it is: its result is lost; only signals whose key is empty or begins with a dot are re-read |
| `Store.Store.ProxySet` | js/luna/src/index.ts:712-718 | The value is at the property wherever the proxied object hangs, and no other path changes; a coherent store stays coherent if and only if the proxied object is detached, is still at the proxy's path, or no cached key below its actual place, outside the notified ones, changes its value |
| `Store.ProxyWrite` | js/luna/src/index.ts:712-718 | The same as a law on heaps and caches |
| `Store.MovedProxyGoesStale` | js/luna/src/index.ts:712-718 | An input on which it fails, for any four keys: after two members of an array were swapped by an updater, assigning through a proxy taken before leaves the cached property at the member's new place wrong |
| `Store.CacheAndSwap` | js/luna/src/index.ts:723-781 | The swap itself leaves every cached signal right |
| `Store.RunRight` | js/luna/src/index.ts:623-785 | Over any run of reads, path updates, root merges, root updaters and proxy assignments from a new store, every cached signal is right at every point if and only if each command's notification reached everything it changed: no created ancestor was cached, and no moved proxy left out a changing key |
| `Store.StepRight` | js/luna/src/index.ts:623-785 | The same for one command |
| `Store.MergeRepairs` | js/luna/src/index.ts:739-749 | A run that ends with a root merge ends with every cached signal right, whatever went before |
| `Store.Store.Perform` | js/luna/src/index.ts:623-785 | Every command on the store object takes the step of the run law |
| `Factorize.BuildIndex` | experiments/css-factorize/factorize.js:73-83 | The inverted index lists every declaration once, in the order of first use, with exactly the selectors that use it, in rule order |
| `Factorize.SortIsFalling` | experiments/css-factorize/factorize.js:89-91 | The sorted list holds the same declarations with falling frequency |
| `Factorize.CommonMeansTogether` | experiments/css-factorize/factorize.js:97-112 | When the pass reaches an unprocessed shared declaration, an unprocessed one that occurs in all its selectors occurs in exactly the same ones, because more frequent ones came earlier |
| `Factorize.CommonDecls` | experiments/css-factorize/factorize.js:97-112 | The inner loop collects the whole class of declarations used by the same selectors |
| `Factorize.FindCommonPatterns` | experiments/css-factorize/factorize.js:72-128 | The greedy pass finds exactly the equivalence classes of declarations under "used by the same selectors", restricted to those with two selectors or more, in the order of falling frequency and, among equally frequent ones, of first use in the rules |
| `Factorize.NamesInjective` | experiments/css-factorize/factorize.js:139-142 | Generated class names are different for different indices, without bound |
| `Factorize.GenerateUtilities` | experiments/css-factorize/factorize.js:133-154 | One utility for each pattern, in order, with pairwise different names |
| `Factorize.AllOrNothing` | experiments/css-factorize/factorize.js:167-174 | A rule contains a pattern wholly or not at all, the former exactly for the pattern's selectors |
| `Factorize.CoveredIffShared` | experiments/css-factorize/factorize.js:93-95 | A declaration that occurs is in no pattern exactly if one selector alone uses it |
| `Factorize.AssignStep` | experiments/css-factorize/factorize.js:167-182 | One step of the assignment: although earlier utilities have removed declarations, the test on what remains succeeds exactly for the pattern's selectors |
| `Factorize.BuildClassMapping` | experiments/css-factorize/factorize.js:159-192 | Every selector gets exactly the utilities whose pattern it is in and keeps exactly the declarations that it alone uses |
| `Factorize.Factor` | experiments/css-factorize/factorize.js:72-192 | The three passes together: the classes, in the order above and named in turn; every selector with the names of exactly the utilities it is in, in their order, and exactly the declarations that it alone uses |
| `Factorize.NothingLost` | experiments/css-factorize/factorize.js:167-188 | A declaration of a rule that does not remain is in a pattern assigned to its selector |
| `Factorize.NothingDoubledOrAdded` | experiments/css-factorize/factorize.js:167-188 | It is in only one pattern, does not also remain, and belongs to the rule if the pattern is assigned to it: pattern declarations and remainder partition the rule |
| `StringSearch.ForwardSkipSafe` | examples/astra_app/docs/public/islands/wiki.js:302-344 | A skip taken from the low-byte table jumps over no occurrence, even when units with the same low byte collide |
| `StringSearch.BackwardSkipSafe` | examples/astra_app/docs/public/islands/wiki.js:434-474 | The same for the search backwards |
| `StringSearch.BuildForwardTable` | examples/astra_app/docs/public/islands/wiki.js:285-301 | Every skip is positive and at most the distance of the unit's last place to the needle's end |
| `StringSearch.BuildBackwardTable` | examples/astra_app/docs/public/islands/wiki.js:418-433 | Every skip is positive and at most the index of the unit's first place after the start |
| `StringSearch.HorspoolFind` | examples/astra_app/docs/public/islands/wiki.js:280-344 | Finds the first occurrence, for all strings, and terminates |
| `StringSearch.BruteForceFind` | examples/astra_app/docs/public/islands/wiki.js:345-409 | Finds the first occurrence |
| `StringSearch.Find` | examples/astra_app/docs/public/islands/wiki.js:410-412 | Finds the first occurrence, whichever algorithm the needle's length selects |
| `StringSearch.HorspoolRevFind` | examples/astra_app/docs/public/islands/wiki.js:413-474 | Finds the last occurrence, for all strings, and terminates |
| `StringSearch.BruteForceRevFind` | examples/astra_app/docs/public/islands/wiki.js:475-538 | Finds the last occurrence |
| `StringSearch.RevFind` | examples/astra_app/docs/public/islands/wiki.js:539-541 | Finds the last occurrence, whichever algorithm is selected |
| `StringSearch.SearchResultUnique` | examples/astra_app/docs/public/islands/wiki.js:410-412 | First and last occurrences are unique, so Horspool and brute force agree on every input |
| `StringSearch.HasPrefix` | examples/astra_app/docs/public/islands/wiki.js:931-940 | True exactly if the text begins with the other one |
| `StringSearch.HasSuffix` | examples/astra_app/docs/public/islands/wiki.js:918-927 | True exactly if the text ends with the other one |
| `Utf16.ToArray` | examples/astra_app/docs/public/islands/wiki.js:974-1079 | The iterator yields the code points of the text, pairs combined and unpaired surrogates as they are |
| `Utf16.FromArray` | examples/astra_app/docs/public/islands/wiki.js:809-825 | Writes code points one after the other as UTF-16 |
| `Utf16.EncodeDecode` | examples/astra_app/docs/public/islands/wiki.js:809-1079 | Decoding to code points and writing them back is the identity on every UTF-16 string, unpaired surrogates included |
| `Utf16.DecodeEncode` | examples/astra_app/docs/public/islands/wiki.js:809-1079 | The other direction is the identity exactly for lists without a high surrogate directly before a low one |
| `Utf16.OffsetOfNthCharForward` | examples/astra_app/docs/public/islands/wiki.js:880-903 | On any window, what a scan finds that takes every lead to begin a pair; none from the last character on |
| `Utf16.OffsetOfNthCharBackward` | examples/astra_app/docs/public/islands/wiki.js:860-879 | On any window, where a scan ends that takes every trail to end a pair; none beyond the first character |
| `Utf16.OffsetOfNthChar` | examples/astra_app/docs/public/islands/wiki.js:904-917 | Negative indices count from the end |
| `Utf16.ForwardIsOffset` | examples/astra_app/docs/public/islands/wiki.js:880-903 | On a well-formed text the forward scan finds every character where it begins |
| `Utf16.BackwardIsOffset` | examples/astra_app/docs/public/islands/wiki.js:860-879 | Passing n characters from the right of a well-formed text ends at the beginning of the character with N - n before it |
| `Utf16.BothWays` | examples/astra_app/docs/public/islands/wiki.js:860-903 | On a well-formed text of N characters the forward offset of n equals the backward offset of N - n exactly for n below N; for n = N only the backward scan has an answer |
| `Utf16.CharLengthGe` | examples/astra_app/docs/public/islands/wiki.js:826-859 | On any window: aborts exactly if there is a lead without its trail, not at the very end, among the characters it counts; otherwise decides whether there are so many characters |
| `Utf16.WellFormedNotBroken` | examples/astra_app/docs/public/islands/wiki.js:826-859 | It never aborts on a well-formed window |
| `Utf16.CharsAreCodePoints` | examples/astra_app/docs/public/islands/wiki.js:826-859 | The number of characters is the number of code points decoded |
| `RoutePaths.SplitBy` | examples/astra_app/docs/public/islands/wiki.js:1866-1890 | One pass with an accumulator computes the pieces between separators |
| `RoutePaths.SplitPathSegments` | examples/astra_app/docs/public/islands/wiki.js:2001-2021 | The non-empty pieces of a path, in order |
| `RoutePaths.JoinSegments` | examples/astra_app/docs/public/islands/wiki.js:1978-2000 | The segments with single slashes between them |
| `RoutePaths.SegmentsOfJoin` | examples/astra_app/docs/public/islands/wiki.js:1978-2021 | Joining proper segments and splitting again gives them back |
| `RoutePaths.NormalizePath` | examples/astra_app/docs/public/islands/wiki.js:2143-2176 | The loop with its flag computes the normal form that the lemmas below describe |
| `RoutePaths.CollapseForm` | examples/astra_app/docs/public/islands/wiki.js:2147-2170 | Collapsing keeps a leading slash, joins the segments by single slashes and keeps at most one trailing slash |
| `RoutePaths.NormalizeForm` | examples/astra_app/docs/public/islands/wiki.js:2143-2176 | A normalized path is its segments joined, with a leading slash if there was one or the path was empty |
| `RoutePaths.NormalizeKeepsSegments` | examples/astra_app/docs/public/islands/wiki.js:2143-2176 | Normalization changes no segment |
| `RoutePaths.NormalizeIdempotent` | examples/astra_app/docs/public/islands/wiki.js:2143-2176 | Normalizing twice is normalizing once |
| `RoutePaths.NormalizeEqual` | examples/astra_app/docs/public/islands/wiki.js:2143-2176 | Two paths normalize alike exactly if they have the same segments and agree on being absolute |
| `RoutePaths.NormalizedLead` | examples/astra_app/docs/public/islands/wiki.js:2143-2176 | The result is never empty, and absolute exactly if the path was absolute or empty |
| `RouteMatch.ExtractParamNames` | examples/astra_app/docs/public/islands/wiki.js:2177-2245 | The names of the named segments, in order; RouteMatch.ParamNameIs says which those are |
| `RouteMatch.ExtractCatchAll` | examples/astra_app/docs/public/islands/wiki.js:2246-2299 | Exactly for a last piece `[[...n]]` the optional catch-all `n`, exactly for `[...n]` the required one, with a name that is not empty; for nothing else a catch-all |
| `RouteMatch.CatchAllIsLast` | examples/astra_app/docs/public/islands/wiki.js:2246-2299 | An extracted catch-all is the last segment and yields no named parameter |
| `RouteMatch.NamelessIs` | examples/astra_app/docs/public/islands/wiki.js:1975-1977 | The matcher takes a segment for a parameter for which the compiler extracts no name exactly for `:` and `[]` |
| `RouteMatch.NamesCount` | examples/astra_app/docs/public/islands/wiki.js:2177-2245 | There are as many names as parameters exactly if no parameter is nameless |
| `RouteMatch.MatchBase` | examples/astra_app/docs/public/islands/wiki.js:2026-2118 | Succeeds exactly if the fixed segments agree and no parameter is nameless, and binds each name to the segment in its place |
| `RouteMatch.TryMatch` | examples/astra_app/docs/public/islands/wiki.js:2026-2118 | Matching a compiled route succeeds if and only if the path is an instance of the pattern and the pattern has no nameless parameter. A pattern ending in `[...n]` never matches the segments of its bare base; one ending in `[[...n]]` does, with `n` empty |
| `RouteMatch.MatchRoundTrip` | examples/astra_app/docs/public/islands/wiki.js:2026-2118 | Substituting the returned parameters into the pattern, with the catch-all value split again, gives back exactly the path's segments |
| `RouteMatch.BindingsOfFill` | examples/astra_app/docs/public/islands/wiki.js:2026-2118 | Any values filled into the pattern give an instance whose match returns these values |
| `RouteMatch.ParsePath` | examples/astra_app/docs/public/islands/wiki.js:1948-1974 | The part before the first question mark, all of it if there is none |
| `RouteMatch.MatchUrl` | examples/astra_app/docs/public/islands/wiki.js:2119-2142 | The first route in order that matches, with what its match returns; none exactly if no route matches |
| `RouteCompile.StepwiseNormalization` | examples/astra_app/docs/public/islands/wiki.js:2300-2357 | Normalizing a prefix before appending gives the same as normalizing once at the end, if and only if the appended text is empty or rooted, or the prefix is not empty and is either open at its end or all slashes |
| `RouteCompile.AppendAlike` | examples/astra_app/docs/public/islands/wiki.js:2300-2357 | Two prefixes with the same segments that both end with a slash, or both do not, stay alike under appending |
| `RouteCompile.AppendMerges` | examples/astra_app/docs/public/islands/wiki.js:2300-2357 | If only one of them does, appending an unrooted text glues it to the other's last segment |
| `RouteCompile.PatternOfWholeChain` | examples/astra_app/docs/public/islands/wiki.js:2300-2357 | The exact condition for a chain of any length: the stepwise normalized pattern is that of the whole concatenated chain if and only if every append after the first is safe in the above sense |
| `RouteCompile.StepwiseOrBehind` | examples/astra_app/docs/public/islands/wiki.js:2300-2357 | One unsafe append loses a segment boundary or gains a leading slash for good; no later append makes up for it |
| `RouteCompile.CountAppend` | examples/astra_app/docs/public/islands/wiki.js:2300-2357 | An unrooted text is glued to an open end and begins a segment of its own at a boundary |
| `RouteCompile.CompileInner` | examples/astra_app/docs/public/islands/wiki.js:2300-2357 | The recursion with an accumulator and normalized prefixes compiles the leaves of the nodes; RouteCompile.LeavesAtPlaces says which those are |
| `RouteCompile.CompileNode` | examples/astra_app/docs/public/islands/wiki.js:2300-2357 | The same for one node of the tree |
| `RouteCompile.CompileLeaf` | examples/astra_app/docs/public/islands/wiki.js:2308-2339 | A page or handler adds one route, with the stepwise normalization of its chain |
| `RouteCompile.Compile` | examples/astra_app/docs/public/islands/wiki.js:2358-2362 | For any tree and base the results are exactly the leaves in the order of their positions. A page has its own component, title and meta and as k-th layout the name of its k-th ancestor from the root; a handler has its own kind and no layouts. The pattern is normalized after every segment on the way and the own path, and is that of the whole chain if and only if its appends are safe |
| `RouteCompile.RootedPatterns` | examples/astra_app/docs/public/islands/wiki.js:2300-2362 | In particular the pattern is that of the whole chain if all its texts are empty or begin with a slash |
| `RouteCompile.CompileRoute` | examples/astra_app/docs/public/islands/wiki.js:2300-2357 | A leaf carries the parameter names and the catch-all of its own full pattern |
| `Crawler.SourceChain` | js/playwright-chaos/src/crawler.ts:205-234 | The recorded sources lead from the base URL to every crawled page along references, in as many steps as its depth |
| `Crawler.DepthIsMinimal` | js/playwright-chaos/src/crawler.ts:205-234 | No walk through pages that are not excluded is shorter than the depth at which a page was crawled: the crawl is breadth-first |
| `Crawler.PushGood` | js/playwright-chaos/src/crawler.ts:223-233 | Queueing a new target keeps the whole invariant: no duplicates or visited URLs in the queue, sources recorded, depths rising along the queue by at most one, targets of visited pages dealt with |
| `Crawler.DiscoverGood` | js/playwright-chaos/src/crawler.ts:222-233 | Queueing all targets of a page keeps it and leaves each of them visited, queued or excluded |
| `Crawler.DropGood` | js/playwright-chaos/src/crawler.ts:208-211 | Dropping an excluded URL keeps it, although that URL may be queued again |
| `Crawler.VisitGood` | js/playwright-chaos/src/crawler.ts:213-220 | Beginning a visit keeps it, but for the targets of that page |
| `Crawler.PageGood` | js/playwright-chaos/src/crawler.ts:205-234 | A whole visit keeps it and adds one visited page |
| `Crawler.NextGood` | js/playwright-chaos/src/crawler.ts:205-234 | Every turn of the loop keeps it and either visits a page or shortens the queue: the loop terminates |
| `Crawler.AllDone` | js/playwright-chaos/src/crawler.ts:205-234 | When the queue is empty, all that visited pages refer to is visited or excluded |
| `Crawler.CrawlIsComplete` | js/playwright-chaos/src/crawler.ts:205-234 | A crawl that empties its queue has visited exactly the pages that can be reached from the base through pages that are not excluded |
| `Crawler.WalkDone` | js/playwright-chaos/src/crawler.ts:205-234 | Every such walk has then been followed to its end |
| `Crawler.Crawler.Enqueue` | js/playwright-chaos/src/crawler.ts:222-233 | The loop over targets queues, at the end, exactly those neither visited nor queued, under this page and method; the counter of this method grows by as many, the other stays |
| `Crawler.Crawler.CrawlNext` | js/playwright-chaos/src/crawler.ts:206-233 | One turn: clicks first, then the result, then the extracted links |
| `Crawler.Crawler.Start` | js/playwright-chaos/src/crawler.ts:159-239 | The crawl ends with at most `maxPages` results, fewer only when the queue is empty; every visited page is reachable from the base through pages that are not excluded, and with an empty queue every reachable one is visited. Each counter is the number of entries queued with its method, whether queued still, crawled or excluded, and a result counts as extracted only if it was not clicked on the page it is reported under |
| `Navigation.RunKeepsInv` | js/loader/src/sol-nav.ts:88-158 | Every interleaving of navigations, prefetches, responses, failures and timers keeps: as many navigations in flight as the flag says, the history accounted for by finished navigations, every cached entry with a pending timer of its own last store |
| `Navigation.OneNavigation` | js/loader/src/sol-nav.ts:89-90 | In every run at most one navigation awaits its response |
| `Navigation.NextKeepsNavigationOk` | js/loader/src/sol-nav.ts:88-144 | Each event keeps the navigation part |
| `Navigation.NextKeepsCacheOk` | js/loader/src/sol-nav.ts:113-158 | Each event keeps the cache part |
| `Navigation.NoEntryOutlivesTtl` | js/loader/src/sol-nav.ts:115-117 | In every run, an entry still cached was stored at most five minutes ago |
| `Navigation.WaitingUndisturbed` | js/loader/src/sol-nav.ts:88-158 | While a navigation waits, no other event changes what is displayed, the history or the navigation itself |
| `Navigation.WholeNavigation` | js/loader/src/sol-nav.ts:88-144 | Whatever happens while it waits, a successful navigation ends displaying its own response with exactly one history operation, of the kind asked for, whether nothing, the same or other html was cached |
| `Navigation.FailedNavigation` | js/loader/src/sol-nav.ts:137-143 | A failed one leaves for its URL; it has displayed and recorded something exactly if there was html for the URL in the cache, not empty, when it began |
| `Navigation.FinishShows` | js/loader/src/sol-nav.ts:110-136 | All three cache paths display the response, record the visit unless cached html was shown, and end the navigation; exactly a fragment is stored, with a timer of five minutes |
| `Navigation.FullLife` | js/loader/src/sol-nav.ts:113-118 | For every run: an entry just stored stays cached for its full five minutes, whatever happens short of another store for the URL, if and only if no timer pending for the URL at that moment is due earlier |
| `Navigation.RefreshedEntryDroppedEarly` | js/loader/src/sol-nav.ts:113-118 | A run in which it does not: a page is prefetched at time 0, fetched again by a navigation at time 1, and gone at time 300000, before 300001 |
| `Navigation.DropAt` | js/loader/src/sol-nav.ts:117 | From any state with a pending timer there are events that lead to its firing when it is due |
| `Navigation.SolNav.Begin` | js/loader/src/sol-nav.ts:88-110 | Ignored while another navigation runs. Otherwise html that is cached for the URL and not empty is displayed at once, with the navigation's own Push or Replace; with nothing or the empty text cached, display and history stay as they are |
| `Navigation.SolNav.Finish` | js/loader/src/sol-nav.ts:111-143 | From the response on: displays it, records the history unless that was done, stores exactly a fragment, and lowers the flag |
| `Navigation.SolNav.Show` | js/loader/src/sol-nav.ts:120-136 | Displays the response unless the same html is displayed from the cache; one history operation in all |
| `Navigation.SolNav.Fail` | js/loader/src/sol-nav.ts:137-143 | Leaves for the URL and lowers the flag; the history is not touched |
| `Navigation.SolNav.BeginPrefetch` | js/loader/src/sol-nav.ts:147-151 | Nothing is requested for a URL that is cached |
| `Navigation.SolNav.EndPrefetch` | js/loader/src/sol-nav.ts:152-156 | The response is cached with a timer of its own, though a navigation may be in flight |
| `Navigation.SolNav.LosePrefetch` | js/loader/src/sol-nav.ts:157 | A failed prefetch leaves everything else as it is |
| `Navigation.SolNav.FireTimer` | js/loader/src/sol-nav.ts:117 | A due timer removes whatever the URL has in the cache then, a newer entry included |
| `Navigation.SolNav.Take` | js/loader/src/sol-nav.ts:88-158 | The object takes the state machine's step for every event, ticks and failures included |
| `Navigation.SolNav.TakeAll` | js/loader/src/sol-nav.ts:88-158 | Over any sequence of events the object is in the state that the machine reaches, invariant included |
| `ChunkLoader.RunKeepsInv` | js/loader/src/boot/loader.ts:218-243 | Every interleaving of requests, successes, failures and clears keeps the invariant between `loaded`, `loading` and the loads in flight |
| `ChunkLoader.LoadsBounded` | js/loader/src/boot/loader.ts:218-331 | In every run the loads in flight for one name are at most one more than the calls of `clear`, and no name is both loaded and loading |
| `ChunkLoader.WithoutClear` | js/loader/src/boot/loader.ts:218-331 | Without a clear, a name is in flight exactly if it is in `loading`, and then once |
| `ChunkLoader.ClearOrphansLoad` | js/loader/src/boot/loader.ts:406-411 | The bound is reached: request, clear, request leaves two loads in flight |
| `ChunkLoader.LoadForPathLoads` | js/loader/src/boot/loader.ts:299-306 | When all that a `loadForPath` waits for has succeeded and nothing was cleared, every matched chunk is loaded, whoever started the loads |
| `ChunkLoader.LoadedExactly` | js/loader/src/boot/loader.ts:308-331 | The law for all runs, clears included: a name is loaded at the end exactly if one of its loads succeeded after the last clear, or it was loaded before and nothing was cleared |
| `ChunkLoader.PathLoadedExactly` | js/loader/src/boot/loader.ts:299-306 | What a `loadForPath` asked for is loaded or loading at once, and loaded at the end under that same condition |
| `ChunkLoader.RequestedAll` | js/loader/src/boot/loader.ts:303-304 | After the requests each chunk is loaded or loading, and loads under way are shared, not repeated |
| `ChunkLoader.LoadedStays` | js/loader/src/boot/loader.ts:308-331 | Without a clear, what is loaded stays loaded |
| `ChunkLoader.Loader.LoadChunk` | js/loader/src/boot/loader.ts:311-331 | A request starts an import exactly if the chunk is neither loaded nor loading |
| `ChunkLoader.Loader.OnChunkLoaded` | js/loader/src/boot/loader.ts:319-323 | The chunk is loaded and whatever entry it has in `loading` is gone, even one of a later load |
| `ChunkLoader.Loader.OnChunkFailed` | js/loader/src/boot/loader.ts:324-327 | The entry in `loading` is gone and a later request loads again |
| `ChunkLoader.Loader.LoadSegment` | js/loader/src/boot/loader.ts:218-243 | A manifest is fetched exactly if it is neither cached nor being fetched |
| `ChunkLoader.Loader.OnSegmentLoaded` | js/loader/src/boot/loader.ts:231-235 | The manifest is cached and its entry removed |
| `ChunkLoader.Loader.OnSegmentFailed` | js/loader/src/boot/loader.ts:236-239 | Only the entry is removed |
| `ChunkLoader.Loader.ClearAll` | js/loader/src/boot/loader.ts:406-411 | Both tables are emptied; loads in flight go on |
| `ChunkLoader.Loader.BeginLoadForPath` | js/loader/src/boot/loader.ts:299-304 | Requests exactly the chunks that are not loaded, in order |
| `Parts.ChildNodePart.constructor` | js/wcssr/src/parts.ts:145-168 | The markers enclose exactly what lies between the given siblings, or follow the one, precede the other or come last where a sibling is missing; nothing else moves; they come out of order exactly if the next sibling precedes the place of the start marker |
| `Parts.ChildNodePart.ClearContent` | js/wcssr/src/parts.ts:203-210 | The loop over siblings removes exactly the nodes between the markers |
| `Parts.ChildNodePart.Commit` | js/wcssr/src/parts.ts:212-237 | For an unchanged value nothing is touched; otherwise the nodes between the markers are new text nodes, none for null and undefined, one for a primitive, one for each item of an array in order; every node outside stays where it was |
| `Parts.SpliceKeeps` | js/wcssr/src/parts.ts:212-237 | Replacing one range leaves a range apart from it in order, with its content |
| `Parts.SpliceKeepsApart` | js/wcssr/src/parts.ts:212-237 | Two other ranges stay apart |
| `Parts.SpliceFilters` | js/wcssr/src/parts.ts:212-237 | Nodes outside the replaced range remain, in their order |
| `Parts.PartGroup.Commit` | js/wcssr/src/parts.ts:316-320 | After committing all parts of a group, with ranges apart from each other under each parent, every part shows its own value, and under every parent the nodes outside all ranges are the same in the same order |
| `Parts.PartGroup.Remove` | js/wcssr/src/parts.ts:307-314 | Removes the first occurrence, and says whether there was one |
| `Scroll.RunBounded` | js/loader/src/router/scroll.ts:43-62 | In every run of saves and clears from an empty manager the size is at most `maxEntries`, and the path just saved is there with its position |
| `Scroll.ScrollManager.TakeAll` | js/loader/src/router/scroll.ts:43-91 | Over any run of saves and clears from an empty manager: the map holds exactly the newest entries of a log of insertions, in the order of their first insertion, each with the position saved last; the storage mirrors it, and foreign entries of the storage are untouched |
| `Scroll.LoggedNext` | js/loader/src/router/scroll.ts:43-62 | Each command changes the map as it changes the log |
| `Scroll.JustSaved` | js/loader/src/router/scroll.ts:43-62 | From a map within the bound, the saved path survives the cleanup |
| `Scroll.SaveBounds` | js/loader/src/router/scroll.ts:43-62 | From any map, oversized ones included, one save restores the bound; the saved path is evicted exactly if it is an old entry among those to go |
| `Scroll.ScrollManager.Save` | js/loader/src/router/scroll.ts:43-62 | A known path keeps its place and a new one is last; of too many entries the first go; the path has the new position and the others theirs; the storage stays a mirror of the map and nothing else in the storage changes |
| `Scroll.ScrollManager.Cleanup` | js/loader/src/router/scroll.ts:172-188 | Removes the entries inserted first, from the map and from the storage, as many as the slice yields: until the bound holds for an oversized map, and twice the size less the bound, if positive, otherwise |
| `Scroll.ScrollManager.Clear` | js/loader/src/router/scroll.ts:84-89 | Both are empty afterwards, and foreign entries of the storage untouched |
| `Scroll.ScrollManager.LoadFromStorage` | js/loader/src/router/scroll.ts:127-150 | The map holds exactly the readable positions stored under the prefix, in the order of the storage's keys |
| `Scroll.LoadedMirrors` | js/loader/src/router/scroll.ts:127-150 | What was loaded mirrors the storage exactly if nothing unreadable is stored under the prefix |
| `Escape.ThreeInOnePass` | js/stella/src/codegen.ts:233-239 | Three global replacements one after the other are one pass over the characters, provided none writes what a later one replaces |
| `Escape.EscapeStringOnePass` | js/stella/src/codegen.ts:233-235 | `escapeString` puts a backslash before each backslash and apostrophe and writes a line feed as backslash and n, each unit on its own; every other unit stays |
| `Escape.EscapeTemplateOnePass` | js/stella/src/codegen.ts:237-239 | `escapeTemplate` puts a backslash before each backslash, backtick and dollar sign, each unit on its own |
| `Escape.EscapeAttrOnePass` | js/wcssr/src/server.ts:22-28 | `escapeAttr` writes `&amp;`, `&quot;`, `&lt;` and `&gt;` for the four characters, each on its own |
| `Escape.EscapeJsonOnePass` | js/wcssr/src/server.ts:45-50 | `escapeJson` writes `\u003c`, `\u003e` and `\u0026` for the three characters, each on its own |
| `Escape.ReadsBack` | js/stella/src/codegen.ts:233-239 | For any of the three readers and any table: text escaped unit by unit is read back if and only if no unit is in it that the reader garbles |
| `Escape.StringLiteralValue` | js/stella/src/codegen.ts:233-235 | A quoted, escaped text is read as a string literal with exactly that text as value, if and only if it has no carriage return |
| `Escape.TemplateLiteralValue` | js/stella/src/codegen.ts:237-239 | The same for a template literal without substitutions |
| `Escape.AttributeValueRead` | js/wcssr/src/server.ts:22-28 | An escaped attribute value is read as the text if and only if that has neither carriage return nor NUL |
| `Escape.StateRoundTrip` | js/wcssr/src/client.ts:135-139 | The client's three replacements undo the server's if and only if the text had none of the sequences `\u003c`, `\u003e`, `\u0026` in it to begin with |
| `Escape.ResultUnambiguous` | js/wcssr/src/client.ts:135-139 | After the client's replacements none of the sequences is left or newly made |
| `Escape.UndoReplace` | js/wcssr/src/client.ts:135-139 | Replacing back one sequence undoes its replacement in a text free of the sequence |
| `Escape.NotCreated` | js/wcssr/src/server.ts:45-50 | A replacement makes no new occurrence of another sequence |
| `Escape.StateDelivered` | js/wcssr/src/server.ts:118 | State through `escapeJson`, `escapeAttr`, an HTML parser and the client's unescape: without carriage return and NUL it arrives escaped as sent, free of `<`, `>` and `&`, and is restored exactly under the condition above |
| `Coverage.MergeCoverage` | scripts/lib/cov-reporter/merge.ts:8-37 | The merge has the files of all sources, each with strictly rising lines, and a line's count is the largest that any source or duplicate has for it |
| `Coverage.AddLine` | scripts/lib/cov-reporter/merge.ts:21-28 | Entering one more measurement keeps each line once, with its largest count so far |
| `Coverage.MergeOrderIrrelevant` | scripts/lib/cov-reporter/merge.ts:8-37 | Sources in any order, or repeated, give the same merge |
| `Coverage.SortRises` | scripts/lib/cov-reporter/merge.ts:32-34 | The sorted lines are the same, strictly rising |
| `Coverage.CalculateStats` | scripts/lib/cov-reporter/merge.ts:39-56 | The numbers of lines of all files and of those with a positive count, and the rate as a percentage, zero for no lines |
| `Coverage.CalculateDirectoryStats` | scripts/lib/cov-reporter/merge.ts:58-73 | One entry for exactly each directory that has a file, with the numbers of its files' lines and of those with a positive count |
| `Coverage.DirectoriesAddUp` | scripts/lib/cov-reporter/merge.ts:39-73 | The per-directory totals add up to the overall ones |
| `StringSearch.MatchAt` | examples/astra_app/docs/public/islands/wiki.js:306-325 | The inner comparison loop decides whether the needle occurs at a position |
| `Utf16.OffsetStep` | examples/astra_app/docs/public/islands/wiki.js:826-903 | In a well-formed text the unit from which, or before which, a scan skips two units is the lead, or the trail, of a pair |
| `Factorize.MapRule` | experiments/css-factorize/factorize.js:162-188 | The same for one rule: although earlier utilities shrink what remains, the outcome depends on the pattern's selectors alone |
| `ChunkLoader.Loader.FindMissing` | js/loader/src/boot/loader.ts:303 | The chunks that are not loaded, in order, repetitions kept |
| `Navigation.SolNav.CacheSet` | js/loader/src/sol-nav.ts:115-117 | Storing an entry starts one more timer for it and stops none |
| `Parts.ChildNodePart.Replace` | js/wcssr/src/parts.ts:215-236 | Clearing and rendering together replace the range, leave the markers in order and show the value |
| `Parts.ChildNodePart.Render` | js/wcssr/src/parts.ts:217-234 | Null and undefined give no node, a primitive one, an array one for each member, all before the end marker |
| `Parts.ChildNodePart.SetValue` | js/wcssr/src/parts.ts:182-184 | Setting a value changes nothing in the tree until it is committed |
| `Scroll.ScrollManager.DropOldest` | js/loader/src/router/scroll.ts:178-186 | Removing one entry from map and storage keeps the mirror |
| `Coverage.AddFile` | scripts/lib/cov-reporter/merge.ts:15-29 | Entering a file keeps the files met so far and each line's largest count |
| `Coverage.AddSource` | scripts/lib/cov-reporter/merge.ts:14-30 | Entering a source does the same for all its files |
| `Coverage.TallyFile` | scripts/lib/cov-reporter/merge.ts:64-69 | Adds a file's lines to the entry of its directory, created if missing |
| `Reactivity.SetRuns` | js/wcr/src/signal.ts:27-53 | Unless the new value is `===` to the old one, exactly the subscribers that are live run, each once, in the order of subscription |
| `Reactivity.DeleteTakesOut` | js/wcr/src/signal.ts:44 | Taking a subscriber out leaves the others in their order |
| `Store.Merged` | js/luna/src/index.ts:763-771 | What merging means below the path, key by key |
| `Store.Replaced` | js/luna/src/index.ts:754-774 | What replacing means: arrays, results of updaters and primitives, and objects set onto anything but a plain object |
| `Store.WalkInto` | js/luna/src/index.ts:655-659 | A created object is an array exactly if the next key is one or more decimal digits |
| `Store.MergeResolves` | js/luna/src/index.ts:739-749 | Where each path leads after a root merge |
| `Factorize.SortIsStable` | experiments/css-factorize/factorize.js:89-91 | Equally frequent declarations keep their order |
| `Factorize.SeedsInOrder` | experiments/css-factorize/factorize.js:93-125 | Patterns are found in the order of falling frequency and then of first use |
| `Factorize.NameIs` | experiments/css-factorize/factorize.js:139-142 | The letters a to z in turn, from the second round on followed by the number of the round in decimal |
| `Factorize.UsersInOrder` | experiments/css-factorize/factorize.js:76-83 | A declaration's selectors are listed in the order of the rules |
| `Factorize.AssignedInOrder` | experiments/css-factorize/factorize.js:162-182 | The names a selector gets are those of the utilities it is in, in the order of the utilities |
| `Utf16.PairsInTurn` | examples/astra_app/docs/public/islands/wiki.js:974-1079 | The surrogate pairs, in order, are the code points from 0x10000 to 0x10FFFF in turn |
| `Utf16.CodePointAt` | examples/astra_app/docs/public/islands/wiki.js:826-1079 | The n-th code point decoded is what begins at the offset of the n-th character |
| `Utf16.BrokenIff` | examples/astra_app/docs/public/islands/wiki.js:826-859 | The abort condition spelled out: one of the characters to count is a lead that a unit other than a trail follows |
| `RouteMatch.ParamNameIs` | examples/astra_app/docs/public/islands/wiki.js:1975-1977 | `:n` and `[n]` are named `n`, unless the name is empty or the bracket begins a catch-all; nothing else has a name, and only `:` and `[]` are parameters without one |
| `RouteMatch.CatchAllIs` | examples/astra_app/docs/public/islands/wiki.js:2246-2299 | `[[...n]]` is the optional catch-all `n`, `[...n]` the required one, for names that are not empty, and nothing else is a catch-all |
| `RouteMatch.ParamNamesConcat` | examples/astra_app/docs/public/islands/wiki.js:2177-2245 | The names of two lists of segments come one list after the other |
| `RouteMatch.RequiredCatchAll` | examples/astra_app/docs/public/islands/wiki.js:2064-2118 | A pattern ending in `[...n]` matches exactly the paths that begin like its base and have more segments, if no parameter of it is nameless |
| `RouteMatch.OptionalCatchAll` | examples/astra_app/docs/public/islands/wiki.js:2064-2118 | One ending in `[[...n]]` matches its bare base too, with `n` empty, under the same proviso |
| `RouteMatch.BoundAt` | examples/astra_app/docs/public/islands/wiki.js:2034-2057 | A parameter is bound to the segment in its place, after those before it |
| `RouteMatch.CatchAllTakesRest` | examples/astra_app/docs/public/islands/wiki.js:2098-2115 | The catch-all takes the remaining segments, joined by single slashes |
| `RouteCompile.LeavesAtPlaces` | examples/astra_app/docs/public/islands/wiki.js:2300-2357 | The leaves are those at the enumerated positions, each with the segments and the layouts on the way to it |
| `RouteCompile.PlacesEnumerate` | examples/astra_app/docs/public/islands/wiki.js:2300-2357 | The enumerated positions are those of all leaves, each once, in order |
| `Crawler.NextFound` | js/playwright-chaos/src/crawler.ts:205-234 | Every entry was clicked on its source page, or was among its links without being clicked there, or is the base |
| `Crawler.CountTaken` | js/playwright-chaos/src/crawler.ts:208-215 | Taking an entry from the queue keeps what the counters count |
| `Navigation.Started` | js/loader/src/sol-nav.ts:89-108 | Cached html that is not empty is displayed and recorded at once; otherwise nothing is before the response; while another navigation waits nothing happens at all |
| `Navigation.StoresIff` | js/loader/src/sol-nav.ts:113-157 | An event stores something for a URL exactly if it starts one more timer of five minutes for it |
| `Navigation.QuietIff` | js/loader/src/sol-nav.ts:113-157 | The events that full life allows are exactly those that store nothing for the URL in any state |
| `ChunkLoader.NothingElseRequested` | js/loader/src/boot/loader.ts:303-304 | Requests start loads only for the chunks asked for |
| `Parts.RenderingIs` | js/wcssr/src/parts.ts:215-236 | What a value shows: nothing, one text, or the texts of the items in order |
| `Parts.FilterAll` | js/wcssr/src/parts.ts:212-237 | The nodes to keep of a list are all of it if all are to be kept |
| `Parts.GapsEnclose` | js/wcssr/src/parts.ts:145-168 | Where the markers come to lie, for each of the four combinations of siblings |
| `Scroll.NewestIsSaved` | js/loader/src/router/scroll.ts:43-62 | What a save leaves, entry by entry |
| `Escape.EscapesNeeded` | js/stella/src/codegen.ts:233-239 | Without an escape exactly the escaped units, and those that cannot be escaped, do not stand for themselves everywhere; in an attribute `<` and `>` do |
| `Coverage.DirTallyCounts` | scripts/lib/cov-reporter/merge.ts:64-69 | The tally of a directory is the number of its files' lines and of those with a positive count |
| `Coverage.SumCounts` | scripts/lib/cov-reporter/merge.ts:42-47 | The overall tally is the same for all files |

## Left out

- Reactivity: effects whose functions write signals, create further effects or throw; a body is a decision tree over the values it reads, so a loop of unbounded length inside one is not modelled. `Val` tells NaN from other values; +0 and -0 count as different.
- The store's batching and the effects behind its signals: a cached signal is its value. Symbol keys, properties of strings, the `length` of arrays and the prototype chain are not modelled. Objects that an updater function returns exist in the heap beforehand.
- Store.Store.SetValueAtPath: the value shares no object with the rest of the store outside the path, because otherwise the objects are no tree; Store.AliasGoesStale shows that a write through a second path then goes unnoticed.
- Store.Store.NewValue: the same for the last argument of `setState`.
- Store.Store.SetState: the same for the last argument of `setState`.
- Store.Store.SetRoot: the same for the merged object.
- Store.Store.ProxySet: the same for the assigned value.
- Store.ProxyWrite: the same for the assigned value.
- Store.StepRight: the same for the values in the command.
- Store.RunRight: the same for the values in all commands of the run.
- Store.Store.Perform: the same for the values in the command.
- Factorize: parsing of CSS, normalization of declarations, output and the cascade meaning of rule order; the built-in sort is a stable insertion sort.
- The compiled signals of the MoonBit library: their batches and pending lists.
- Routes: texts are sequences of Unicode scalar values, so lone surrogates in a path, at which the compiled substring functions raise an error, are not modelled; neither are query strings, `get_param`, and the page, title and meta lookups after a match. The prefix and suffix tests on segments are stated directly; StringSearch proves the compiled tests on UTF-16 units to mean the same.
- RouteCompile.Compile: the result array is a value passed along instead of one that is pushed onto.
- UTF-16 and search: 32-bit wrap-around of indices, which strings shorter than 2^31 never reach.
- Crawler: the browser. A site is a function from URLs to clicked and extracted targets; which clicks happen, recovery, action history and weighted actions are not modelled. The test for a URL visited before is left out because the invariant shows that it never succeeds.
- Navigation: the DOM update, scrolling and errors thrown by them after the cache was written; events are the points between which the code runs without waiting. Timers fire when due and before time goes on.
- The class form of the same navigation protocol in js/loader/src/router/hybrid.ts.
- Chunk loading: path matching by patterns and prefixes, URL resolution, and what a module does when it is imported.
- ChunkLoader.Loader.LoadSegment: a manifest that is JSON null, zero, false or an empty string; the source tests the cached value for truth and fetches such a manifest again.
- Parts.ChildNodePart.Commit: DOM nodes and fragments as values, which would move nodes from elsewhere. The initial content is only known not to be touched before the first change. Values are immutable, and NaN counts as equal to itself.
- Parts.ChildNodePart.Replace: DOM nodes and fragments as values.
- Parts.ChildNodePart.Render: DOM nodes and fragments as values.
- Parts.PartGroup.Commit: parts of other kinds in the group, and ranges nested in each other.
- Scroll positions: storage that throws or is full, restoring and scrolling.
- Escape.StateDelivered: the JSON serializer itself is a parameter, namely the text; that it writes no carriage return or NUL is assumed. Readers fail on escapes and references that the escapers never write.
- `escapeHtml`, `decodeHtmlEntities`, `expandCSS` and the regular-expression based tools.
- Coverage.MergeCoverage: line lists are values that replace each other, where the original overwrites counts and sorts in place; its objects are its own, so nothing else sees that.
- Coverage: insertion order of the result maps, `dirname` (a parameter) and rounding of the rate.
- React examples, command line tools, templates and generated loaders.
