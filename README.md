# webPresents and uSlides, modelled in Dafny

webPresents is a jQuery slideshow library. A `Slideshow` owns the child
elements of a container as `Slide`s. It moves between them with `next`,
`prev` and the private `switchTo`. Each slide passes through the lifecycle
`afterHide → show → afterShow → hide → afterHide`; its `state` is the name
of the last event fired on it. Listeners registered with `on`/`one` react to
these events. `data-` attributes install behaviours: `duration` auto-advances
after a delay, `transition` names a transition, and video and fade effects.
A transition, when the outgoing slide has one, runs asynchronously and
signals its end by firing `afterShow` on the incoming slide. uSlides is the
earlier, simpler deck: it hides and shows elements, has no events and no
loop option, and its start is one-shot. Both files share
`getCssPropertyName`, a memoised vendor-prefix lookup.

The model is imperative where the source is:

- **Slides** (module `SlideModel`): `Slide` is a class with fields `state`,
  `transition`, `listeners`, `pending` (the duration timer), `visible` and
  `foreign` (the video and fade installer calls).
- **The deck** (module `Presents`): `Deck` is a class holding the slides, the
  current slide, the slide in flight during a transition, `started` and
  `loop`.
- **Specification functions** (module `Stages`): each deck operation is
  proved against value functions on the deck's *stage*, which is the views of
  all slides, the current slide and the slide in flight. `Switch` models
  `switchTo`; `Begin` models its steps 1-3; `Land` models the incoming
  slide's `afterShow`.
- **The invariant**: `StageOk` is preserved by every operation. Either one
  slide is on stage (`afterShow`, visible); or, during a transition, the
  outgoing slide is in `hide` and the incoming one is in `show` with its
  one-shot commit listener. Every other slide is off-screen in `afterHide`.
- **Listeners** are data (module `Events`):
  - the duration behaviour's arm and cancel listeners;
  - switchTo's one-shot commit listener, which hides the outgoing slide and
    reassigns the current slide;
  - page-script listeners, which record the state they observe.
- **Firing**: `Deck.Fire` is `Slide.fire`. It stamps the state before any
  listener runs, runs a snapshot of the listeners in order and drops the
  one-shot ones.
- **Environment steps**: a transition's end is `Deck.TransitionDone`, and a
  duration timer's expiry is `Deck.Expire`.
- **getCssPropertyName** (module `CssProperty`) is modelled once. A
  `Resolver` class holds the cache; the browser's `style` object is a set of
  supported camelCase names.
- **uSlides** (module `USlides`): a `Deck` class with a visibility flag per
  slide and a `Proxy` class for its EventProxy.
- **The video behaviour's `whenReady` queue** (module `Media`): a `Player`
  class.

Where the code and its comments disagree, the model follows the code. The
one exception is the switchTo guard under "## Findings": the model uses the
guard the comment states and also models the code as written.

## Model

| member | source | states |
|---|---|---|
| Behaviours.CoerceDecimal | src/webPresents.js:106-110 | the text of any integer is coerced back to that number (`isFinite` then `Number`), read exactly (the source's double agrees up to 2^53) |
| Behaviours.CoerceText | src/webPresents.js:106-110 | the empty text and non-numeric texts are passed on as text |
| Behaviours.Coerce | src/webPresents.js:108-110 | a value becomes a number exactly when its text is decimal (the `!== ''` test is implied, since the empty text is not decimal), read as an exact integer; any other text is passed on unchanged |
| Behaviours.InstallOf | src/webPresents.js:104-111 | one attribute gives at most one installer call |
| Behaviours.Registered | src/webPresents.js:110 | `behaviours[dataName]` over the registry of webPresents.js:597-672 finds a behaviour exactly when the suffix is that behaviour's registered name (`duration`, `transition`, `video`, `fullvideo`, `fadeelements`) |
| Behaviours.InstallsMember | src/webPresents.js:104-111 | an installer call happens exactly for the `data-` attributes whose suffix names a registered behaviour, with the coerced value; other attributes are ignored |
| Behaviours.Installs | src/webPresents.js:105-111 | the loop makes at most one installer call per attribute; which calls, and in which order, is stated by `InstallsMember` and `InstallsAppend` |
| Behaviours.InstallsAppend | src/webPresents.js:105-111 | the `while (i--)` loop visits attributes from the last to the first |
| Behaviours.LookupTransition | src/webPresents.js:510-512 | among the table's own names, a name gives a transition exactly when it is `fadeToBlack` or `slideFade`, and each gives its own; any other name, the default `''` included, gives none (names inherited from `Object.prototype` are under "## Left out") |
| Behaviours.ResolveRef | src/webPresents.js:509-515 | `Slide.transition` gives no transition exactly for a name that is not a built-in transition; it gives a caller's transition function exactly when it was handed one, and then that same function; `fadeToBlack` and `slideFade` give those two transitions |
| Behaviours.TransitionOfValue | src/webPresents.js:621-623 | the `transition` installer hands a text value to `Slide.transition` (webPresents.js:509-515) as a name, so it gives what that name resolves to and never a caller's function; a numeric value gives none |
| Behaviours.TransitionOverride | src/webPresents.js:82-83 | a `data-transition` attribute overrides the default transition, whatever the default was; without one the default is kept |
| Behaviours.ForeignInstalls | src/webPresents.js:105-111 | the recorded calls are exactly the video, fullvideo and fadeelements installer calls |
| Behaviours.ForeignInstallsAppend | src/webPresents.js:105-111 | the record of two runs of installers is the first run's record followed by the second's, so the calls are kept in the order they are made |
| SlideModel.DurationListenersShape | src/webPresents.js:604-614 | the duration behaviour adds persistent listeners that arm on afterShow and cancel on hide, with a cancelling listener for every arming one |
| SlideModel.InstalledOne | src/webPresents.js:604-623 | one installer call: duration adds its two listeners, transition sets the transition, the rest are recorded |
| SlideModel.Slide.constructor | src/webPresents.js:441-445 | a new slide is in `afterHide`, hidden, with no listeners and no transition |
| SlideModel.Slide.On | src/webPresents.js:394-397 | `on` appends a persistent listener |
| SlideModel.Slide.One | src/webPresents.js:404-407 | `one` appends a one-shot listener |
| SlideModel.Slide.Stamp | src/webPresents.js:492-495 | `fire(e)` sets the state to e before any listener runs; the snapshot is exactly the listeners for e |
| SlideModel.Slide.SetTransition | src/webPresents.js:509-515 | the slide's transition becomes the resolved reference |
| SlideModel.Slide.RunInstaller | src/webPresents.js:604-623 | one behaviour installer |
| SlideModel.Slide.VisitAttribute | src/webPresents.js:105-110 | one turn of the `while (i--)` loop: the slide ends as after the installer call the attribute gives, or unchanged when it gives none |
| SlideModel.Slide.ApplySlideBehaviours | src/webPresents.js:96-112 | the slide ends as the fold of its installer calls, from the last attribute to the first |
| Events.MatchingMember | src/webPresents.js:420-424 | `Matching`, the snapshot `fire(e)` runs: a listener is in it exactly when it is registered on the slide for e |
| Events.MatchingAppend | src/webPresents.js:420-424 | the snapshot of two lists of listeners is the first list's snapshot followed by the second's, so the snapshot keeps registration order |
| Events.MatchingCount | src/webPresents.js:420-424 | a listener registered for e occurs in the snapshot as often as it was registered; one for another event does not occur |
| Events.RemainingMember | src/webPresents.js:404-407 | `Remaining`, the listener list after `fire(e)`: a listener stays exactly when it is registered and is not a one-shot listener for e |
| Events.RemainingAppend | src/webPresents.js:404-407 | removing the one-shot listeners for e from two lists gives the first list's remainder followed by the second's, so the order of the kept listeners is unchanged |
| Events.RemainingCount | src/webPresents.js:404-407 | no one-shot listener for e is left, and every other listener is kept as often as it was registered |
| Events.CommitsRemaining | src/webPresents.js:215-218 | firing afterShow consumes switchTo's commit listener |
| Events.CommitsKept | src/webPresents.js:404-407 | firing any other event keeps the commit listener |
| Events.FirstCommitSpec | src/webPresents.js:215-218 | the snapshot holds at most one commit listener, at a known position |
| Events.PendingAfterArms | src/webPresents.js:607-610 | without a cancel in the snapshot, the timer ends up pending iff it was pending or a listener armed it |
| Events.PendingAfterCancels | src/webPresents.js:611-613 | without an arm in the snapshot, the timer ends up pending iff it was pending and nothing cancelled it |
| Events.PendingAfterSource | src/webPresents.js:604-614 | only an arming listener starts the timer |
| Stages.HideClears | src/webPresents.js:611-613 | hide on a well-formed slide leaves no timer pending |
| Stages.AfterShowArms | src/webPresents.js:607-610 | afterShow leaves a timer pending exactly when the slide had one pending or has a duration |
| Stages.UserListenerOk | src/webPresents.js:394-407 | page-script listeners keep a slide well formed and add no commit |
| Stages.NextOfSpec | src/webPresents.js:159-167 | next() moves to the following slide; past the last it wraps to the first only with `loop`; with at least two slides it never targets the current one |
| Stages.PrevOfSpec | src/webPresents.js:180-182 | prev() moves to the preceding slide and has no target on the first; it never wraps |
| Stages.ElementsSpec | src/webPresents.js:76-78 | with `loop` and a single child the deck gets a second copy of it; otherwise the children as they are; a looping deck never has exactly one slide |
| Stages.InitialOk | src/webPresents.js:81-85 | a newly built slide is well formed and off-screen |
| Stages.LeavingOk | src/webPresents.js:205-208 | hide on the settled current slide keeps it on screen, in hide, its timer cleared |
| Stages.EnteringOk | src/webPresents.js:210-218 | show, `show()` and the one-shot listener make the target Arriving, its commit naming the outgoing slide |
| Stages.ArrivedOk | src/webPresents.js:215-218 | afterShow on the incoming slide runs its commit, which names the outgoing slide, and settles it on stage |
| Stages.HiddenOk | src/webPresents.js:216 | `hide()` and afterHide leave the outgoing slide off-screen |
| Stages.BusyIffInFlight | src/webPresents.js:200-203 | under the invariant, the intended guard (current slide not in afterShow) holds exactly while a transition is in flight |
| Stages.Begin | src/webPresents.js:205-218 | steps 1-3 of switchTo keep the number of slides and the current slide, and put the target in flight |
| Stages.Land | src/webPresents.js:215-218 | the incoming slide's afterShow makes the slide in flight current and leaves nothing in flight |
| Stages.Switch | src/webPresents.js:194-231 | switchTo keeps the number of slides; what it does to them is stated by `SwitchOk`, `GuardHolds`, `SwitchSettles` and `SwitchDefers` |
| Stages.BeginOk | src/webPresents.js:205-218 | steps 1-3 of switchTo on a settled deck keep every slide in its role, with the target in flight |
| Stages.LandOk | src/webPresents.js:215-218 | the incoming slide's afterShow settles the deck |
| Stages.SwitchOk | src/webPresents.js:194-231 | switchTo keeps the deck invariant |
| Stages.GuardHolds | src/webPresents.js:200-203 | while a transition is in flight, switchTo changes no slide and neither the current slide nor the slide in flight |
| Stages.SwitchSettles | src/webPresents.js:225-227 | with no transition on the outgoing slide, switchTo finishes at once: the target is current in afterShow and shown, the outgoing slide is in afterHide and hidden, every other slide is unchanged |
| Stages.SwitchDefers | src/webPresents.js:221-223 | with a transition, the current slide stays current until the transition ends; the outgoing slide is in hide and the target in show; every other slide is unchanged |
| Stages.LandSettles | src/webPresents.js:215-218 | when the transition ends, the incoming slide is current in afterShow and the outgoing one is in afterHide and hidden |
| Stages.SwitchTimers | src/webPresents.js:604-614 | across a switch, hide clears the outgoing slide's timer, and afterShow arms the incoming one's exactly when it has a duration |
| Stages.SwitchCycles | src/webPresents.js:194-231 | every slide moves forward along afterHide, show, afterShow, hide, afterHide and never back: by at most one state when the switch starts a transition, by at most two when it completes at once |
| Stages.LandCycles | src/webPresents.js:215-218 | the end of a transition moves each slide at most one state forward along that cycle |
| Stages.RoundTrip | src/webPresents.js:159-182 | on a deck of slides without transitions, start, next() then prev() come back to the first slide, current in afterShow with nothing in flight, and leave the second slide in afterHide |
| Stages.AtMostOneShown | src/webPresents.js:200-227 | at most one slide is in show or afterShow |
| Stages.Settled | src/webPresents.js:487-489 | a slide in afterShow or with a pending timer is the current slide, and no transition is running |
| Stages.ClearedOk | src/webPresents.js:608-610 | a timer's expiry keeps the invariant |
| Stages.ListenedOk | src/webPresents.js:394-407 | page-script listeners keep the invariant, whatever slide and phase they are added in |
| Stages.UnguardedReentry | src/webPresents.js:196-206 | the intended guard drops a request made during a transition; with the guard as written the request breaks the invariant: re-requesting the slide in flight gives it a second commit listener; requesting another slide starts a second transition, the model keeps only that one in flight, and both pending commits name the same outgoing slide |
| Stages.GuardAsWritten | src/webPresents.js:195-203 | the guard as written never drops a request, since the local `currentSlide` it reads is still unassigned |
| Stages.SwitchAsWritten | src/webPresents.js:194-231 | with that guard every request is acted on, in a transition or not: with a transition on the outgoing slide, the target is put in flight and the current slide is kept; without one, the target is current at once and nothing is in flight |
| Presents.Deck.Fire | src/webPresents.js:492-495 | Slide.fire: the slide ends as `Fired` (state stamped, one-shot listeners for e gone, timer folded over the snapshot); the snapshot's commit, if any, hides the slide it names and makes this slide current; every page-script listener observes the new state |
| Presents.Deck.RunAll | src/webPresents.js:420-424 | the snapshot's listeners run in order; the effects of the commit listener happen exactly once; every page-script listener of the snapshot records that it observed the state e |
| Presents.Deck.Run | src/webPresents.js:420-424 | one listener of the snapshot runs: the firing slide changes only in its timer, folded over that listener; only the commit makes the slide current and hides the slide it names; any other listener adds to the observation record exactly its own entry (one for a page-script listener, showing the state e, none otherwise) |
| Presents.Deck.RunCommit | src/webPresents.js:215-218 | the commit listener hides the outgoing slide, fires afterHide on it and makes the incoming slide current |
| Presents.Deck.Begin | src/webPresents.js:205-218 | steps 1-3 of switchTo give the slides of `Stages.Begin` |
| Presents.Deck.Leave | src/webPresents.js:205-208 | step 1 of switchTo: the settled current slide fires hide and ends as `Fired` for hide, still on stage and leaving; no other slide changes and the current slide is kept |
| Presents.Deck.Enter | src/webPresents.js:210-218 | steps 2 and 3: the off-screen target fires show, is shown and gets the one-shot commit naming the outgoing slide, so it is arriving; no other slide changes |
| Presents.Deck.Proceed | src/webPresents.js:205-227 | the part of switchTo past the guard, on a settled deck, gives the stage `Switch` of the old stage |
| Presents.Deck.Arrive | src/webPresents.js:215-218 | afterShow on the incoming slide gives the stage `Land` |
| Presents.Deck.SwitchTo | src/webPresents.js:194-231 | switchTo gives the stage `Switch` of the old stage and keeps the invariant |
| Presents.Deck.TransitionDone | src/webPresents.js:681 | the transition's closing afterShow gives the stage `Land` and keeps the invariant |
| Presents.Deck.Next | src/webPresents.js:159-167 | next() is switchTo of `NextOf` |
| Presents.Deck.Prev | src/webPresents.js:180-182 | prev() is switchTo of `PrevOf` |
| Presents.Deck.Start | src/webPresents.js:243-288 | start() acts once: it switches to the first slide, which ends current, in afterShow and shown, with nothing in flight; it sets `started`; later calls change nothing |
| Presents.Deck.Complete | src/webPresents.js:487-489 | complete() calls next() only when the slide is in afterShow (it is then current); otherwise nothing changes |
| Presents.Deck.Expire | src/webPresents.js:607-610 | a timer expiry, when pending, clears the timer of the current slide and advances as complete() does; otherwise nothing changes |
| Presents.Deck.On | src/webPresents.js:394-397 | a page script's `on` adds a persistent listener to one slide and keeps the invariant |
| Presents.Deck.One | src/webPresents.js:404-407 | a page script's `one` adds a one-shot listener to one slide and keeps the invariant |
| Presents.Deck.Listen | src/webPresents.js:394-407 | registering a page-script listener on one slide gives the stage `Listened` (the listener appended to that slide only) and keeps the invariant |
| Presents.Deck.NewSlide | src/webPresents.js:82-84 | a slide with the default transition, then its behaviours |
| Presents.Deck.MakeSlides | src/webPresents.js:81-85 | one slide per element, in order |
| Presents.Deck.constructor | src/webPresents.js:62-86 | the deck has one slide per element, a single child of a looping deck cloned; each slide is built from the default transition and its attributes; nothing is current, nothing is in flight, the deck is not started, and the invariant holds |
| CssProperty.Lower | src/uSlides.js:242 | lower-casing keeps the length and maps each character |
| CssProperty.UpperFirst | src/uSlides.js:239 | upper-casing the first character changes only its case: the length, every later character and the lower-cased name are kept; a lower-case first letter becomes upper case, and any other first character is kept |
| CssProperty.CamelCase | src/uSlides.js:230-232 | the camelCase form is never longer than the name; its inverse on CSS-style names is `CamelCaseInverse` |
| CssProperty.CamelCaseNoHyphen | src/uSlides.js:230-232 | a name without hyphens is its own camelCase form |
| CssProperty.Hyphenate | src/uSlides.js:242 | hyphenating never shortens the name |
| CssProperty.HyphenateMarks | src/uSlides.js:242 | after hyphenating, every upper-case letter comes right after a hyphen |
| CssProperty.SearchSpec | src/uSlides.js:240-244 | `Search`, the `while (i--)` countdown, returns the prefixed name of the highest supported index, or `''` |
| CssProperty.ResolveCases | src/uSlides.js:227-245 | `Resolve`, what a cache miss computes, is exactly one of: the name itself when its camelCase form is supported; the first supported prefixed form, trying Moz, Ie, O, then Webkit; `''` |
| CssProperty.MozFirst | src/uSlides.js:240-244 | when Moz's form is supported, Moz wins |
| CssProperty.CamelCaseInverse | src/uSlides.js:230-242 | hyphenating and lower-casing the camelCase form of a hyphenated lower-case name gives it back |
| CssProperty.PrefixedNameShape | src/uSlides.js:242 | for such a name p, a prefixed result is `'-' + lower(prefix) + '-' + p`, e.g. `-moz-border-radius` |
| CssProperty.Resolver.constructor | src/uSlides.js:217-220 | the lookup starts with an empty cache over the browser's style object, so every cached entry (there is none) agrees with a fresh lookup |
| CssProperty.Resolver.Get | src/uSlides.js:222-248 | a cached name is answered from the cache; every answer equals a fresh lookup; the cache gains exactly that entry |
| CssProperty.GetTwice | src/uSlides.js:222-247 | repeated calls give identical results and leave the cache as the first call left it |
| USlides.StepBack | src/uSlides.js:83-100 | the element after the current one has the current one before it, and the other way round: one next() undone by one prev(), and one prev() by one next() |
| USlides.ForwardBack | src/uSlides.js:83-100 | from a slide with k slides after it, k calls of next() reach the k-th following slide and k calls of prev() come back to it |
| USlides.Deck.constructor | src/uSlides.js:30-37 | every child is hidden, nothing is current |
| USlides.Deck.SwitchTo | src/uSlides.js:112-121 | without a target nothing changes; otherwise the old slide is hidden, the new one shown, and it is current; nothing else changes; exactly the current slide is shown |
| USlides.Deck.Next | src/uSlides.js:83-85 | next() moves one slide on, and on the last slide changes nothing |
| USlides.Deck.Prev | src/uSlides.js:98-100 | prev() moves one slide back, and on the first slide changes nothing |
| USlides.Deck.Start | src/uSlides.js:133-180 | start() acts once: the first slide is shown and current, `started` is set; later calls change nothing |
| USlides.BoundMember | src/uSlides.js:295-299 | firing e runs a handler exactly as often as it was bound to e |
| USlides.BoundOn | src/uSlides.js:279-283 | a new binding runs after all earlier ones, and only for its own event |
| USlides.Proxy.On | src/uSlides.js:279-283 | on() appends a binding |
| USlides.Proxy.Fire | src/uSlides.js:295-299 | trigger's walk over the bindings runs the handlers bound to the event in binding order, each exactly as often as it was bound to the event, and removes none |
| Media.ActionFor | src/webPresents.js:582-595 | show requests the rewind, afterShow `play()`, hide `pause()`; afterHide requests nothing |
| Media.Player.constructor | src/webPresents.js:564-565 | a player starts not ready, with an empty queue and no call run or requested |
| Media.Player.WhenReady | src/webPresents.js:567-569 | once ready, a call runs at once; before, it is queued after the earlier ones |
| Media.Player.SlideEvent | src/webPresents.js:582-595 | each slide event requests its media call through whenReady: on a ready player the call runs at once and the queue is unchanged; before the metadata has loaded the call is queued and nothing runs |
| Media.Player.LoadedMetadata | src/webPresents.js:575-580 | the signal makes the player ready and runs every queued call in order; after exactly one signal every requested call has run once, in request order |

## Left out

- Keyboard binding and its interactive-element filter (webPresents.js:249-268, uSlides.js:139-158): DOM event input. `Next`/`Prev` are the operations the keys call.
- Presents.Deck.RunAll: the observation record is stated per listener, not as one equation for the whole snapshot. Each page-script listener of the snapshot has its entry in the record, and `Run` appends exactly one listener's entry, in the loop's ascending order. The single equation over the whole loop is too costly to prove here.
- Full-screen scaling `scaleToFill` and the page-wide CSS (webPresents.js:270-282, 299-306): window geometry and floating-point scale.
- Transitions: the animation work of `fadeToBlack` and `slideFade` (webPresents.js:695-773) is jQuery animation with real timers. The model keeps their contract: each ends by firing `afterShow` once on the incoming slide (`Deck.TransitionDone`).
- The media calls of `video`/`fullvideo` (element creation, `currentTime`, `play`, `pause`; webPresents.js:559-599) and the CSS work of `fadeelements`: foreign DOM and media APIs. Their installer calls are recorded in the slide's `foreign` list. The video's `ended` handler calls `complete()`, which is `Deck.Complete`.
- Real `setTimeout`/`clearTimeout`: the timer is the slide's `pending` flag, and its expiry is the environment step `Deck.Expire`.
- Behaviours.Coerce: integer texts are read as exact integers. The source reads them as doubles, so it rounds texts beyond 2^53 (`9007199254740993` gives 9007199254740992), and `isFinite` keeps a text past the double range (about 1.8e308) as text, where the model gives a number.
- Behaviours.CoerceDecimal: the round trip is proved for every integer; the source's `Number` gives it back exactly only up to 2^53 in magnitude.
- JavaScript `Number`/`isFinite` on text: numeric coercion is modelled for an optional sign and decimal digits only. Whitespace, fractions, exponents, hex and `Infinity` are not modelled.
- Behaviours.TransitionOfValue: a non-zero numeric `data-transition` value is stored by the source as a non-function, which would be called at the next switch. The model gives such a slide no transition. (A zero value, `0`, `-0` or `000`, is falsy, so the source then fires `afterShow` at once, as the model does.)
- jQuery's event internals, `data()` storage and the jQuery presence check (webPresents.js:7-9). `Slideshow.get` (webPresents.js:144) is a DOM lookup with no effect on the deck.
- Page-script listeners only observe the slide in this model. A listener that calls back into the deck (`complete()`, `next()`) or fires lifecycle events itself, from inside a firing, is not modelled.
- Listeners are identified by their kind and tag, not by closure identity.
- The error a plain JavaScript call would raise: `next()`/`prev()` before `start()` dereference an undefined `_currentSlideElm`. `Deck.Next`/`Deck.Prev` require a current slide instead. In uSlides the same holds for a call before start; after start with an empty container, the empty selection makes them no-ops.
- uSlides' `find(':first-child')` (uSlides.js:175) also matches nested first children. The model takes the slides to be flat and shows the first one. Its empty `get` (uSlides.js:70) is left out.
- Character case mapping in `getCssPropertyName` is ASCII only.
- Behaviours.Registered: the registry is the five built-in behaviours. `webPresents.behaviours` is exported (webPresents.js:781) and pages may add to it (webPresents.js:553). A `data-` attribute naming a behaviour a page added is ignored by the model; the source calls that page's installer, whose effect is page code.
- Behaviours.LookupTransition: the source's tables are plain objects, so a lookup also finds names inherited from `Object.prototype`. `data-transition="toString"` stores `Object.prototype.toString` as the slide's transition (webPresents.js:511); the next switch calls it, it never fires `afterShow`, and the deck stays in flight. The model gives such a slide no transition. The same inheritance in `behaviours[dataName]` (webPresents.js:110) calls `Object` for `data-constructor`, which has no effect, and raises a TypeError for `data-__proto__`; the model ignores both attributes.
- CssProperty.Resolver.Get: `propertyName in cache` (uSlides.js:223) is also true for inherited names such as `constructor`, and then a function is returned instead of a property name. The model's cache holds only the names it stored.
- Media.Player.LoadedMetadata: with more than one `loadedmetadata` signal, the queued calls run again, since the queue is never emptied. The model states what each call does but proves request order only for the single-signal case.

## Findings

| source | as written | input that shows it | evidently intended | confidence | as-written member | corrected member |
|---|---|---|---|---|---|---|
| src/webPresents.js:196-206 | the guard `if (currentSlide && currentSlide.state !== 'afterShow')` reads the local `currentSlide`, which is assigned only at line 206, so it never drops a request; if taken it would also return the undeclared `slideShow` | a started deck of three slides showing the second, which has `data-transition="fadeToBlack"`; call `next()`, then `next()` or `prev()` again before the fade ends | drop the request while the current slide is not in `afterShow` (the comment at line 200), returning the slideshow | not executed | Stages.SwitchAsWritten, Stages.UnguardedReentry | Stages.Switch, Presents.Deck.SwitchTo, Stages.GuardHolds |

In the re-entry example the second `next()` targets the slide already in
flight. That slide fires `show` again and gets a second commit listener, so
the transition's `afterShow` runs two commits. A `prev()` instead starts a
second transition from the same outgoing slide to the first slide. Both
transitions later fire `afterShow` on their own incoming slide. So two
commits run against the outgoing slide, and two slides end in `afterShow`,
both shown. The model's stage tracks one transition at a time. After the
`prev()` it keeps only the second transition in flight, the first slide in
flight is left in `show`, and both pending commits name the outgoing slide.
`Stages.UnguardedReentry` proves both cases for every deck in a transition.
