# vite-plugin-hulak-tools in Dafny

This project models the string logic of the hulak Vite plugins and proves properties of it:

- **The Handlebars-like template engine** (`hulak-handlebars.js`):
  - the parser for the parameters of one `{{> path params}}` partial reference (`Params`);
  - the recursive partial resolver `processPartials` over an abstract file map (`Partials`);
  - the `{{ key }}` placeholder substitution both stages share (`Tokens`);
  - the directive stage of the emitted runtime's `createHtml`: the pass loop, capped at ten passes, and the four `{{#if}}` rewrite rules (`Directives`);
  - the finalisation: props substitution, removal of empty attributes and the sweep of leftover placeholders (`Runtime`);
  - the instance lifecycle: `currentProps`, `rootElement`, `update`, `render` and `toString`, over a small document of numbered nodes (`Lifecycle`).
- **The router** (`hulak-router.js`): URL normalisation, `:name` pattern matching and filling, output file naming, route lookup, and the param sets a route is built with (`Router`).
- **The entry point** (`index.js`): mode normalisation and the assembly of the plugin list (`Plugins`).

Two support modules, `Strings` and `Objects`, hold what the three files need:

- the character classes of the expressions;
- `split`, `join`, `trim`, `toLowerCase`;
- a generic leftmost global `replace` driven by a matcher;
- JavaScript plain objects as ordered entry lists, in `Object.keys` order, with truthiness and display of prop values.

Both kinds of regular expression are written out by hand as deterministic scanners:
- Every greedy repetition is followed by a character it cannot take, so it takes its longest run.
- Every lazy body is a search that grows one character at a time, which is the order in which backtracking tries them.

The imperative parts of the source are methods, each proved equal to the function that specifies it:
- the `exec` loop of the parameter parser;
- the `forEach` substitution loops;
- the bounded pass loop;
- the segment loop of `matchPattern` and the entry loop of `matchRoute`;
- the `forEach` of `fillPattern`;
- the lifecycle closure, as the classes `Dom` and `Component`.

The file system, the DOM parser and `encodeURIComponent`/`decodeURIComponent` are parameters.

Behaviour of the code that a reader might not expect:
- **The equality form with a space.** An equality block written with a space after `#if` on one line is taken by the bare-key rules, which run first. Its key is then the whole text `(eq k "v")`. See `Directives.EqOpenerShadowed` and `Directives.EqOpenerTight`. When the body breaks the line, the bare rules cannot match and rules 3 and 4 take the block: see `Directives.EqElseEvaluatesSpaced`.
- **A missing root.** When the markup holds no element, the code throws. At mount, the first `rootElement[key] = …` fails. In `update`, `newElement[key] = …` fails after the props are merged and before `rootElement` is reassigned. The model returns `null` from `Lifecycle.Component.Mount`. `Update` returns `None` after merging the props and keeps the old root.
- **Falsy values.** Substitution shows every falsy value as the empty text: `0`, `false` and `''` as well as `null`.
- **Empty attributes.** The attribute clean-up also removes values made only of white space, with either quote at either end.
- **Block markers.** The final sweep removes every `{{…}}` without `}` inside. That includes stray `{{else}}`, `{{/if}}` and `{{#if …}}` markers: see `Runtime.SweepElseTag` and `Runtime.SweepCloseTag`.

## Model

| member | source | states |
|---|---|---|
| Params.CloseQuote | hulak-handlebars.js:8 | the lazy quoted value ends at the first matching quote before any line terminator, and there is none when a line terminator comes first |
| Params.NextEntry | hulak-handlebars.js:24 | `exec` finds the leftmost entry at or after the last index, with no entry between |
| Params.ParseParams | hulak-handlebars.js:20-34 | the `exec` loop over a copy of the parent's params computes the merged parameter set |
| Params.ApplyAllLookup | hulak-handlebars.js:24-34 | after the loop every key holds the value of the last entry that binds it, else what it held before |
| Params.MergedLookup | hulak-handlebars.js:20-34 | a partial's params are the parent's, overridden key by key by the last binding in its own list; an alias binds the parent's value, never one set earlier in the same list |
| Params.ApplyAllKeys | hulak-handlebars.js:20-34 | the keys of the parent keep their places; the set only grows |
| Params.ApplyAllSnoc | hulak-handlebars.js:24-34 | processing one more entry is one more step on the set built so far |
| Params.ApplyLookup | hulak-handlebars.js:25-32 | a literal stores its value; an alias copies the parent's property only when the parent has it |
| Params.LiteralAt | hulak-handlebars.js:8 | `key="value"` and `key='value'` are read verbatim up to the matching closing quote |
| Params.AliasAt | hulak-handlebars.js:8 | `target=source` is read as an alias of the whole identifier run |
| Params.TwoLiterals | hulak-handlebars.js:24-26 | for the example `a="1" a="2"`, both literals are entries, in order |
| Params.LaterLiteralWins | hulak-handlebars.js:24-26 | for the example `a="1" a="2"`, the later value `2` is kept, whatever the parent holds |
| Params.MissingAliasIgnored | hulak-handlebars.js:27-32 | an alias whose source the parent lacks leaves the params as the parent's |
| Partials.ReferenceAt | hulak-handlebars.js:11 | a reference starts with `{{>`, has a non-empty path and ends with `}}` |
| Partials.ReferenceParts | hulak-handlebars.js:11 | spaces, the longest path run, spaces and the raw parameter string up to the first `}}` make the match |
| Partials.PartialFile | hulak-handlebars.js:14 | the file named is the path followed by `.html` |
| Partials.ExpandAt | hulak-handlebars.js:13-52 | the callback answers exactly where a reference starts, and its match lies after that point |
| Partials.SubstituteParams | hulak-handlebars.js:38-41 | the `forEach` replaces every placeholder of every merged key in `Object.keys` order |
| Partials.ResolveNoReference | hulak-handlebars.js:10-13 | text without `{{>` is returned unchanged |
| Partials.ResolveMissing | hulak-handlebars.js:44-51 | when no partial can be read every reference is kept as written |
| Partials.ResolveMissingOne | hulak-handlebars.js:48-51 | a reference to a missing or unreadable partial is kept exactly as written |
| Partials.ResolveSplice | hulak-handlebars.js:13-43 | a reference to a readable partial is replaced by the partial's content: first resolved with the merged params as parent, then with every merged key substituted |
| Partials.ResolveLeaf | hulak-handlebars.js:36-43 | a partial that includes nothing is spliced in with its merged params substituted |
| Partials.ResolveNoFuel | hulak-handlebars.js:10-53 | with the depth bound spent nothing is expanded |
| Tokens.TokenEnd | hulak-handlebars.js:39 | a placeholder match starts with `{{` and ends inside the text, after its start |
| Tokens.TokenAt | hulak-handlebars.js:39 | `{{`, any spaces, the key, any spaces and `}}` make a placeholder |
| Tokens.SubstituteOne | hulak-handlebars.js:39-40 | one placeholder in text without other braces is replaced by the value and the rest is kept |
| Tokens.SubstituteNoBrace | hulak-handlebars.js:38-41 | text without braces has nothing to substitute |
| Directives.BareOpener | hulak-handlebars.js:76 | a bare opener starts with `{{#if` and its body starts at least nine characters after it, inside the text; `Directives.BareElseBlock` gives its exact shape |
| Directives.EqOpener | hulak-handlebars.js:86 | the equality opener yields ordered positions of its key, its expected value and its end |
| Directives.LazyCloseAt | hulak-handlebars.js:81 | an opener pairs with the nearest following `{{/if}}`; the body is not nesting-aware and, under `.`, cannot cross a line |
| Directives.LazyElseAt | hulak-handlebars.js:76 | the if-else body ends at the first `{{else}}` from which a closing `{{/if}}` follows |
| Directives.LazyElseNone | hulak-handlebars.js:76 | with no `{{else` ahead an if-else block cannot match |
| Directives.BareElseBlock | hulak-handlebars.js:76 | rule 1 matches `{{#if c}}A{{else}}B{{/if}}` on one line, with A and B as its bodies |
| Directives.BareOnlyBlock | hulak-handlebars.js:81 | rule 2 matches `{{#if c}}A{{/if}}` on one line |
| Directives.EqElseBlock | hulak-handlebars.js:86 | rule 3 matches an equality opener, `A{{else}}B{{/if}}`, across lines |
| Directives.EqOnlyBlock | hulak-handlebars.js:90 | rule 4 matches an equality opener and `A{{/if}}` across lines |
| Directives.EqOpenerShadowed | hulak-handlebars.js:76-86 | an equality opener with a space after `#if` is also a bare opener whose condition is the whole `(eq …)` text |
| Directives.EqOpenerTight | hulak-handlebars.js:86 | an equality opener written without a space after `#if` is read by rules 3 and 4 and by neither bare rule |
| Directives.LazyCloseBlocked | hulak-handlebars.js:81 | under `.` a body that meets a line terminator before any `{{/if` cannot close |
| Directives.LazyElseBlocked | hulak-handlebars.js:76 | under `.` a first body that meets a line terminator before any `{{else` cannot end |
| Directives.SpacedEqNotBare | hulak-handlebars.js:76-84 | a spaced equality opener whose body breaks the line before any `{` is matched by neither bare rule |
| Directives.BareRulesNeedSpace | hulak-handlebars.js:76-84 | no bare rule matches an opener followed by a non-space |
| Directives.EvaluateDirectives | hulak-handlebars.js:69-93 | the pass loop computes the directive stage: ten passes at most, each applying the four rules in order |
| Directives.RunPass | hulak-handlebars.js:75-92 | one iteration of the loop is one pass: the four rules applied in order |
| Directives.EvaluateBounded | hulak-handlebars.js:73 | the stage runs some number of passes up to ten, stops early only when no `{{#if` is left, and every pass it runs starts from a template with one |
| Directives.EvaluateNoDirective | hulak-handlebars.js:73 | a template without `{{#if` runs no pass |
| Directives.PassNoDirective | hulak-handlebars.js:76-92 | a pass over a template without `{{#if` changes nothing |
| Directives.BareElseEvaluates | hulak-handlebars.js:76-79 | a one-line if-else block becomes its first body when the prop named by the trimmed condition is truthy, else its second, the rest of the text kept |
| Directives.BareOnlyEvaluates | hulak-handlebars.js:81-84 | a one-line if block becomes its body when the prop is truthy, else nothing |
| Directives.EqElseEvaluates | hulak-handlebars.js:86-88 | an equality if-else block written without a space after `#if` becomes its first body when the prop is exactly the expected string, else its second; bodies may span lines |
| Directives.EqElseEvaluatesSpaced | hulak-handlebars.js:76-88 | an equality if-else block written `{{#if (eq k "v")}}` whose first body breaks the line escapes both bare rules and becomes its first body when the prop is exactly the expected string, else its second |
| Directives.EqOnlyEvaluates | hulak-handlebars.js:90-92 | an equality if block written without a space after `#if` becomes its body when the prop is exactly the expected string, else nothing |
| Directives.EqOnlyEvaluatesSpaced | hulak-handlebars.js:76-92 | an equality if block written `{{#if (eq k "v")}}` whose body breaks the line escapes both bare rules and becomes its body when the prop is exactly the expected string, else nothing |
| Runtime.Shown | hulak-handlebars.js:97 | each prop is shown as `props[key] \|\| ''`, in key order |
| Runtime.SubstituteProps | hulak-handlebars.js:95-98 | the `forEach` replaces every placeholder of every prop by its shown value |
| Runtime.EmptyAttrAt | hulak-handlebars.js:100 | an empty attribute match starts with white space and is removed |
| Runtime.EmptyAttrShape | hulak-handlebars.js:100 | white space, a name, `=`, a quote, white space and a quote make an empty attribute |
| Runtime.StripOneAttr | hulak-handlebars.js:100 | one empty attribute is removed with its leading white space and the rest is kept |
| Runtime.LeftoverAt | hulak-handlebars.js:101 | a leftover match starts with `{{` and is removed |
| Runtime.SweepNoBrace | hulak-handlebars.js:101 | text without `{` is left alone by the sweep |
| Runtime.SweepOne | hulak-handlebars.js:101 | one `{{…}}` with no `}` inside is removed and the rest is kept |
| Runtime.SweepElseTag | hulak-handlebars.js:101 | a stray `{{else}}` is swept away |
| Runtime.SweepCloseTag | hulak-handlebars.js:101 | a stray `{{/if}}` is swept away |
| Runtime.CreateHtml | hulak-handlebars.js:68-104 | `createHtml` is the directive stage, then substitution, then attribute removal, then the sweep |
| Runtime.HtmlNoBrace | hulak-handlebars.js:68-104 | a template without braces loses only its empty attributes, whatever the props |
| Objects.Put | hulak-handlebars.js:26 | assigning a key replaces its value in place or appends it, and changes no other key |
| Objects.Spread | hulak-handlebars.js:117 | `{ ...a, ...b }` gives every key of `b` its value from `b` and every other key its value from `a` |
| Objects.Display | hulak-handlebars.js:97 | a falsy value shows as the empty text and any other value as its text |
| Lifecycle.Operations | hulak-handlebars.js:140-142 | the attached operations are exactly `update`, `toString` and `render` |
| Lifecycle.SwappedMembers | hulak-handlebars.js:127 | after `replaceChild` the old child is gone and the new one is in its place |
| Lifecycle.LinkedReplace | hulak-handlebars.js:127 | `replaceChild` keeps parent links and child lists in agreement |
| Lifecycle.LinkedAppend | hulak-handlebars.js:144 | `appendChild` keeps parent links and child lists in agreement |
| Lifecycle.Replaced | hulak-handlebars.js:127 | the new node takes the old node's place among the parent's children, and the old node loses its parent; the new node leaves its former parent's children, and no other child list changes |
| Lifecycle.Appended | hulak-handlebars.js:144 | the appended node leaves its old parent and becomes the target's last child |
| Lifecycle.Within | hulak-handlebars.js:144 | a target that is the node counts as within it, and any other target within it has a parent |
| Lifecycle.WithinAncestor | hulak-handlebars.js:144 | the test `appendChild` makes holds exactly when the node is on the first steps of the target's `parentElement` chain |
| Lifecycle.Rendered | hulak-handlebars.js:106-111 | rendering makes a container holding the first element of the trimmed markup, when there is one |
| Lifecycle.WithOps | hulak-handlebars.js:123-125 | attaching the operations changes nothing else |
| Lifecycle.Rebuilt | hulak-handlebars.js:116-137 | update builds a new root that carries the operations and, when the old root had a parent, stands in its place there |
| Lifecycle.RebuiltRoot | hulak-handlebars.js:116-137 | the root update leaves is a well-formed root |
| Lifecycle.Dom.AppendChild | hulak-handlebars.js:144 | the store moves the node under the target as its last child |
| Lifecycle.Dom.ReplaceChild | hulak-handlebars.js:127 | the store puts the new node in the old node's place |
| Lifecycle.Dom.RenderElement | hulak-handlebars.js:106-111 | the store adds the container and the parsed element, and returns the element when there is one |
| Lifecycle.Dom.AttachOperations | hulak-handlebars.js:123-125 | the `forEach` attaches the three operations to the node |
| Lifecycle.Dom.RebuildRoot | hulak-handlebars.js:119-137 | the DOM work of update: render, attach the operations, replace the old root when it has a parent |
| Lifecycle.Component.Mount | hulak-handlebars.js:113-153 | the instance's root is the rendered element with the operations attached; there is no instance (the code throws) when the markup holds no element |
| Lifecycle.Component.Update | hulak-handlebars.js:116-138 | update merges the props with new keys winning, rebuilds the root from them, and stores and returns the new root; `toString` then serialises it |
| Lifecycle.Component.Rebuild | hulak-handlebars.js:119-137 | the props are kept and the new root is stored and returned |
| Lifecycle.Component.Render | hulak-handlebars.js:142-147 | render appends the existing root to a target node and returns it without rebuilding; a target that is the root or lies inside it makes `appendChild` throw and leaves the document unchanged |
| Lifecycle.Component.ToString | hulak-handlebars.js:141 | `toString` gives markup the document holds for a node; `Mount`, `Update` and `Rebuild` state that it is the root's |
| Router.Cut | hulak-router.js:15 | the path is the longest prefix without `?` or `#` |
| Router.NormalizeUrlPath | hulak-router.js:14-19 | normalisation gives `/` for an empty path, removes exactly one trailing `/` from any other path, and otherwise keeps the path |
| Router.NormalizeNormal | hulak-router.js:14-19 | a normal path is its own normalisation |
| Router.NormalizeResult | hulak-router.js:14-19 | a result that does not end in `/` (or is `/`) is normal |
| Router.NormalizeTwice | hulak-router.js:14-19 | normalisation is not idempotent: `/a//` gives `/a/`, and that gives `/a` |
| Router.MatchPattern | hulak-router.js:21-47 | splitting both normalised paths and running the segment loop computes the pattern match, `null` for different segment counts |
| Router.MatchSegments | hulak-router.js:32-46 | the segment loop with its early return computes the match of equally long segment lists |
| Router.MatchFromSome | hulak-router.js:32-46 | the loop succeeds exactly when every non-empty literal segment equals its URL segment |
| Router.MatchFromGet | hulak-router.js:38-40 | every name gets the decoded URL segment of its last `:name`, and other names keep what they had |
| Router.PatternMatchMeaning | hulak-router.js:21-47 | `null` exactly for a different segment count or a differing literal; otherwise each name has its last binding, and no other name is present |
| Router.FillPattern | hulak-router.js:49-55 | the `forEach` replaces, key by key, the first `:key` of the normalised pattern with the encoded value |
| Router.FilledNoColon | hulak-router.js:49-55 | a path without `:` is left as it is by filling |
| Router.FilledPrefixCollision | hulak-router.js:51-53 | filling `/:idx/:id` with `id` then `idx` gives `/1x/:id` |
| Router.FillSegs | hulak-router.js:49-55 | segment-wise filling keeps each literal and replaces each `:key` the params hold with the encoded value |
| Router.FillPathSegments | hulak-router.js:49-55 | the segments of a segment-wise filled path are the filled segments |
| Router.FillPathNormal | hulak-router.js:49-55 | a segment-wise filled path is normal |
| Router.FillThenMatch | hulak-router.js:49-55 | a path filled segment-wise matches its pattern and reads back every param the pattern names |
| Router.StripLeadingSlash | hulak-router.js:58 | exactly one leading `/` is removed |
| Router.MakeFileNameFromPath | hulak-router.js:57-65 | the file name always ends in `.html`, extends the path without its leading `/`, and equals that path exactly when it already names an `.html` file; otherwise `index.html` is appended to an empty or `/`-ending path and `/index.html` to any other |
| Router.FileNamesDistinct | hulak-router.js:57-65 | distinct normal paths that start with `/` and do not end in `.html` get distinct file names |
| Router.FileNameShared | hulak-router.js:57-65 | `/a` and `/a/index.html` share the file `a/index.html` |
| Router.MatchRoute | hulak-router.js:67-81 | the route loop with its early return computes the route lookup |
| Router.FirstPatternAt | hulak-router.js:74-78 | the first matching dynamic route, in entry order, wins |
| Router.FirstPatternNone | hulak-router.js:74-80 | no dynamic route is found exactly when none with a `:` matches |
| Router.FirstPatternFound | hulak-router.js:74-78 | a route found is a matching `:` entry with no matching entry before it |
| Router.RouteMeaning | hulak-router.js:67-81 | a truthy exact entry wins with empty params; otherwise the first matching dynamic route; `null` exactly when neither exists |
| Router.ParamSets | hulak-router.js:153-159 | a static pattern gets one empty param set; a dynamic one gets its `staticParams` list, and is skipped exactly when that list is missing or empty |
| Plugins.NormalizeMode | index.js:18-24 | the mode is `typescript` exactly when the lower-cased argument is `ts` or `typescript`, and `javascript` otherwise and by default |
| Plugins.NormalizeModeIdempotent | index.js:18-24 | normalising a normalised mode changes nothing |
| Plugins.ModeSpellings | index.js:18-24 | `TS`, `TypeScript` give `typescript`; `JS` and no argument give `javascript` |
| Plugins.HulakPlugins | index.js:32-49 | no plugin unless Handlebars is enabled; then exactly one, whose options are the Handlebars options with `mode` set to the normalised mode, overriding any given |

## Left out

- File and DOM I/O are left out. `existsSync`/`readFileSync` become a map from file name to content, and a file that cannot be read stands for any exception in the `try` block. `path.resolve` becomes the name followed by `.html`. The HTML parser is a function from markup to the first element's markup.
- Partials.Resolve: the recursion of `processPartials` has no cycle check. The model bounds its depth with fuel, and a reference met with no fuel left is kept as written, as the `catch` would keep it on a stack overflow. The exact depth at which JavaScript overflows is not modelled.
- `$` patterns in replacement strings are left out. So are regular-expression characters inside keys: keys are treated as identifiers and values as free of `$`.
- Tokens.TokenEnd: a key that itself begins with white space is not matched.
- Objects: JavaScript enumerates integer-like keys first. That ordering is not modelled; keys keep their insertion order. Prototype properties such as `constructor` or `hasOwnProperty` are not seen by lookups.
- Objects.Value: prop values are strings, integers, booleans or `null`. Other values and general coercion are left out; numbers are shown as decimal integers.
- Plugins.NormalizeMode: `toLowerCase` is modelled on ASCII letters only. The outcome of the `ts`/`typescript` test is the same, since no other character lower-cases to one of those letters. A `mode` that is not a string (which throws) is not modelled.
- Plugins.HulakPlugins: the Handlebars plugin is known only by the options it is built from. `config` itself being `null` (which throws) is not modelled.
- `encodeURIComponent` and `decodeURIComponent` are function parameters. Their exceptions on malformed input are not modelled.
- Router.FillPattern: `params \|\| {}` is modelled as an absent or present param object whose values are strings.
- Router.ParamSets: `staticParams` entries are lists of param objects. Entries of other types are not modelled.
- The dev-server middleware, `processHtml`, `transformHtml`, `emitFile`, the `transform` gate and the logging are left out. So is `hulak-loader-page.js`.
- Lifecycle: node identity is a number.
  - The container that `renderElement` creates is a fresh node with the element as its only child. Its text siblings are not modelled.
  - The operations attached to a node are recorded by name.
  - `render` with no target (or one without `appendChild`) appends nothing and returns the root.
  - Appending the root to itself or to a node inside it, which throws, returns `None`.
- Lifecycle.Component.Render: the ancestor test follows at most as many `parentElement` steps as there are nodes. That is the whole chain while the parent links form no cycle; the model does not prove that every operation keeps them acyclic.
- Lifecycle.Component.ToString: `outerHTML` serialises the live subtree. The model's markup of a node is fixed when the node is parsed, so nodes appended into the root later are not serialised with it.

## Findings

| source | as written | input that shows it | evidently intended | confidence | as-written member | corrected member |
|---|---|---|---|---|---|---|
| hulak-router.js:51-53 | each key replaces the first occurrence of `':' + key` anywhere in the path, so a key that is a prefix of another parameter's name fills the wrong segment | pattern `/:idx/:id` with params `{ id: "1", idx: "2" }` gives `/1x/:id` | `/2/1`: each `:name` segment filled with its own param | not executed | Router.FilledPrefixCollision | Router.FillThenMatch |
