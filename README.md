# Portfolio site core, modelled in Dafny

This project models the logic of an artist's portfolio site. The site is a React single-page app that
stores its content in a hosted Postgres database. The model covers the parts with exact, sequential
behaviour:

- **Mobile overlay navigation** (`GooeyNav`). An open/closed state machine with:
  - a focus trap over the overlay's focusable elements;
  - arrow-key cycling over the menu items;
  - a focus memento, remembered on open and restored on close;
  - ownership of the page scroll lock.

  It is modelled in two layers. A pure transition function `Step` is the specification. The class
  `NavController` holds one method per event handler, and each method is proved to produce
  `Step(old state, event)`. The class keeps the ownership invariant `Inv`.
- **Translations** (`I18n`). The `t` lookup walks a dot-separated key through a nested catalog. If the
  walk fails in the current locale, `t` walks the whole key again in English; if that fails too, it
  returns the key. Also modelled: initial-locale selection, `setLocale` with its local-storage write,
  and the `useI18n` guard. `t` is a method with the source's two loops, proved equal to the function
  `Translate`.
- **The contact form** (`ContactForm`). The trim-and-bounds schema, every issue it reports, and the
  single `"unread"` row a valid submission inserts.
- **The public artworks query** (`ArtworksQuery`). The server-side selection and ordering, stated as a
  specification, and the client-side search filter.
- **Site settings** (`SiteSettings`). The public-settings query, including `maybeSingle`, and the `??`
  fallback chain of `useSiteSetting`.
- **The admin pages.** This covers:
  - the shared loading/admin gate, the `||` defaulting of nullable text, and the insert-or-update choice
    (`Admin`);
  - the settings card state machine and its "looks like JSON" rule (`SettingsManager`);
  - the artwork and exhibition forms: defaults, field edits, payloads and round trips
    (`ArtworksManager`, `ExhibitionsManager`);
  - the messages page: unread count, badges, and mark-read as an in-place array update
    (`MessagesManager`).
- **Presentation helpers.**
  - The accent-style rule, the active-item rule and the marquee contents of the two flowing menus
    (`FlowingMenu`, `HorizontalFlowMenu`).
  - Line and character splitting in the split-text heading (`SplitText`).

Shared modules:

- `Wrappers`: `Option` and `Result`.
- `Seqs`: filter, subsequence and count.
- `Text`: `trim`, `startsWith`, `includes`, `toLowerCase`, `split` and `join`.
- `Numbers`: integer JavaScript numbers with `NaN`, `parseInt` on decimal text, and `toString`.
- `Json`: JSON values.

The platform is abstracted as follows:

- **DOM.** Elements are natural-number identities. `document.activeElement` is the `focused` field.
  `document.body.style.overflow` is the `overflow` field.
- **Storage and browser.** `localStorage` is a map. `navigator.language` and the current year are
  parameters.
- **Foreign functions.** `JSON.parse`, `JSON.stringify` and zod's email check are function parameters.
- **Database.** Tables are sequences of rows.

How the navigation controller closes, as the code has it:

- Escape closes the menu like every other way of closing (src/components/reactbits/GooeyNav.tsx:81-84).
  Closing then gives focus back to the element that had it when the menu opened, and forgets that
  element (src/components/reactbits/GooeyNav.tsx:139-145).
- Focus goes back to the remembered element without checking that it is still in the document.
- A second toggle simply closes the menu again; nothing stops two toggles in a row.

An unedited artwork round trip (src/pages/admin/ArtworksManager.tsx:155-181) changes these columns
and keeps every other one:

- an empty description or technique becomes null;
- an empty category becomes `"painting"`;
- a missing or empty status becomes `"draft"`;
- a missing featured flag becomes `false`;
- a missing display order becomes `0`.

## Model

| member | source | states |
|---|---|---|
| GooeyNav.FocusableElements | src/components/reactbits/GooeyNav.tsx:52-69 | No container gives an empty ring. Otherwise an element is in the ring iff it is a descendant that matches the focus selector and is not a focus guard, and the ring lists them in document order (a subsequence of the container's descendants). |
| GooeyNav.MatchesFocusSelector | src/components/reactbits/GooeyNav.tsx:57-62 | `a[href]`, `button:not([disabled])`, `[role='menuitem']` or `[tabindex]` other than "-1". |
| GooeyNav.MenuItems | src/components/reactbits/GooeyNav.tsx:108-111 | No container gives no items. Otherwise the items are exactly the `data-menu-item` descendants, in document order. |
| GooeyNav.IndexOf | src/components/reactbits/GooeyNav.tsx:117-118 | `findIndex`: -1 iff the element is absent. Otherwise it is the first index holding the element. |
| GooeyNav.IndexOfDistinct | src/components/reactbits/GooeyNav.tsx:117-118 | With distinct items, `findIndex` of item i is i. |
| GooeyNav.TabTarget | src/components/reactbits/GooeyNav.tsx:87-105 | The trap acts iff the ring is non-empty and focus is on the first element (Shift+Tab) or the last (Tab). Its target is then the other end. |
| GooeyNav.NextIndex | src/components/reactbits/GooeyNav.tsx:126 | `(i + 1) % n` is the next index, or 0 after the last. |
| GooeyNav.PrevIndex | src/components/reactbits/GooeyNav.tsx:129 | `(i - 1 + n) % n` is the previous index, or n - 1 before the first. |
| GooeyNav.ArrowTarget | src/components/reactbits/GooeyNav.tsx:107-132 | Arrow keys act iff focus is on a menu item, and the target is itself an item. ArrowDown goes to index `NextIndex(i, n)` and ArrowUp to `PrevIndex(i, n)`. |
| GooeyNav.ArrowDownThenUp | src/components/reactbits/GooeyNav.tsx:125-130 | With distinct items, ArrowDown then ArrowUp returns focus to the starting item. |
| GooeyNav.ArrowDownStep | src/components/reactbits/GooeyNav.tsx:125-127 | One ArrowDown from item i lands on item i + 1, or on item 0 from the last. |
| GooeyNav.ArrowDownTimesCompose | src/components/reactbits/GooeyNav.tsx:125-127 | a + b ArrowDowns equal a ArrowDowns followed by b more. |
| GooeyNav.ArrowDownTimesForward | src/components/reactbits/GooeyNav.tsx:125-127 | k ArrowDowns from item i, without passing the end, land on item i + k. |
| GooeyNav.ArrowDownTimesStuck | src/components/reactbits/GooeyNav.tsx:117-121 | From an element that is not a menu item, ArrowDown presses never move focus. |
| GooeyNav.ArrowDownFullCycle | src/components/reactbits/GooeyNav.tsx:125-127 | With n distinct items, n ArrowDowns from any item return to that item. |
| GooeyNav.Downs | src/components/reactbits/GooeyNav.tsx:107-132 | `k` ArrowDown key events. |
| GooeyNav.RunDowns | src/components/reactbits/GooeyNav.tsx:107-132 | While the listener is installed, k ArrowDown key events move focus as `ArrowDownTimes` says and change nothing else. |
| GooeyNav.ArrowDownFullCycleRun | src/components/reactbits/GooeyNav.tsx:107-132 | With n distinct menu items and focus on one, n ArrowDown key events leave the whole state unchanged. |
| GooeyNav.Initial | src/components/reactbits/GooeyNav.tsx:15 | On mount the menu is closed, no listener is installed, nothing is remembered, and the page's overflow is in place. |
| GooeyNav.Opened | src/components/reactbits/GooeyNav.tsx:139-165 | Opening installs the listener and remembers the focused element. It focuses the first ring element if there is one, saves the overflow and sets it to "hidden". |
| GooeyNav.Closed | src/components/reactbits/GooeyNav.tsx:139-165 | Closing removes the listener, restores the saved overflow, refocuses the remembered element and clears the memento. |
| GooeyNav.SetOpen | src/components/reactbits/GooeyNav.tsx:135-165 | `setOpen(v)` leaves the menu open iff v. Setting the current value changes nothing, because the effects run only on a change. |
| GooeyNav.HandleKey | src/components/reactbits/GooeyNav.tsx:80-136 | Without the listener nothing changes. Escape closes. Every other key changes at most the focused element. A Tab the trap does not handle, an arrow key with no target, and any other key change nothing. |
| GooeyNav.RouteTo | src/components/reactbits/GooeyNav.tsx:71-73 | The pathname effect records the new path. A different path closes the menu; the same path changes nothing. |
| GooeyNav.Step | src/components/reactbits/GooeyNav.tsx:71-170 | Toggle flips `open`. The close button, the backdrop and an item click close the menu, and an item click records its route. A route change closes it. Escape closes it while the listener is installed. A key press without the listener changes nothing. |
| GooeyNav.Run | src/components/reactbits/GooeyNav.tsx:71-170 | A sequence of events applied one `Step` at a time. |
| GooeyNav.Inv | src/components/reactbits/GooeyNav.tsx:139-165 | Listener installed iff open; while open, overflow "hidden", the page value saved and an element remembered; while closed, the page value in place and nothing saved or remembered. |
| GooeyNav.StepPreservesInv | src/components/reactbits/GooeyNav.tsx:154-165 | Every event keeps the invariant: listener installed iff open; overflow "hidden" with the page value saved while open; page value back and nothing remembered while closed. |
| GooeyNav.KeysIgnoredWhileClosed | src/components/reactbits/GooeyNav.tsx:75-78 | While closed, no key press changes anything. |
| GooeyNav.ScrollLockReleased | src/components/reactbits/GooeyNav.tsx:154-165 | After any sequence of events, overflow is "hidden" iff the menu is open. When closed, it is exactly the page's value from before opening. |
| GooeyNav.TogglingAlternates | src/components/reactbits/GooeyNav.tsx:169 | k toggles leave `open` as it was for even k and flipped for odd k. |
| GooeyNav.FocusMovesKeepMemento | src/components/reactbits/GooeyNav.tsx:80-133 | Non-Escape key presses in the open menu change only the focused element. |
| GooeyNav.FocusRestoredOnClose | src/components/reactbits/GooeyNav.tsx:139-152 | Open, move focus with any keys, then close by any route: focus is back on the element focused before opening, nothing is remembered, and the page overflow is restored. |
| GooeyNav.HeaderRing | src/components/reactbits/GooeyNav.tsx:276-297 | The header overlay (title, a `role="menu"` list of four menu-item links, close button) has the links and the close button as its ring, and the links as its items. |
| GooeyNav.HeaderWalkThrough | src/components/reactbits/__tests__/GooeyNav.test.tsx:57-106 | The component tests' walk-through: open focuses Home; Shift+Tab wraps to Close and Tab back to Home; ArrowDown/ArrowUp visit Portfolio and return; Escape closes and refocuses the menu button; choosing Portfolio closes the menu on the new route. |
| GooeyNav.HeaderOpens | src/components/reactbits/__tests__/GooeyNav.test.tsx:63-71 | Opening from the menu button on "/" focuses Home and locks scrolling. |
| GooeyNav.HeaderTabWraps | src/components/reactbits/__tests__/GooeyNav.test.tsx:73-79 | Shift+Tab on Home focuses the close button, and Tab there focuses Home again. |
| GooeyNav.HeaderArrowsReturn | src/components/reactbits/__tests__/GooeyNav.test.tsx:93-97 | ArrowDown on Home focuses Portfolio, and ArrowUp returns to Home. |
| GooeyNav.HeaderEscapeCloses | src/components/reactbits/__tests__/GooeyNav.test.tsx:99-102 | Escape closes the menu, refocuses the menu button and releases the scroll lock. |
| GooeyNav.HeaderChoiceCloses | playwright/mobile-navigation.spec.ts:30-34 | Choosing Portfolio closes the menu, moves to "/portfolio" and refocuses the menu button. |
| GooeyNav.HeaderArrows | src/components/reactbits/__tests__/GooeyNav.test.tsx:93-97 | Among the header's four items, ArrowDown from Home targets Portfolio and ArrowUp from Portfolio targets Home. |
| GooeyNav.TabMovesFocus | src/components/reactbits/GooeyNav.tsx:87-105 | A Tab the trap handles moves focus to the trap's target and changes nothing else. |
| GooeyNav.TabIgnored | src/components/reactbits/GooeyNav.tsx:87-105 | A Tab the trap does not handle (empty ring, or focus not on the end it wraps from) changes nothing. |
| GooeyNav.ArrowMovesFocus | src/components/reactbits/GooeyNav.tsx:107-132 | An arrow key on an item, with or without Shift, moves focus to the cycling target and changes nothing else. |
| GooeyNav.ArrowIgnored | src/components/reactbits/GooeyNav.tsx:107-121 | An arrow key, with or without Shift, when there are no items or focus is on none of them, changes nothing. |
| GooeyNav.OtherKeyIgnored | src/components/reactbits/GooeyNav.tsx:80-136 | A key other than Escape, Tab and the arrows changes nothing. |
| GooeyNav.Render | src/components/reactbits/GooeyNav.tsx:251-306 | `aria-expanded`, the dialog and the backdrop are present iff open. The trigger label is "Close navigation" when open and "Open navigation" otherwise. |
| GooeyNav.NavController.constructor | src/components/reactbits/GooeyNav.tsx:15 | The controller starts in `Initial` and satisfies the invariant. |
| GooeyNav.NavController.RunOpenEffects | src/components/reactbits/GooeyNav.tsx:139-165 | The open effects, step by step, produce `Opened`. |
| GooeyNav.NavController.RunCloseEffects | src/components/reactbits/GooeyNav.tsx:139-165 | The cleanups and close effects, step by step, produce `Closed`. |
| GooeyNav.NavController.ToggleMenu | src/components/reactbits/GooeyNav.tsx:169 | The new state is `Step(old, Toggle)`, and the invariant is kept. |
| GooeyNav.NavController.CloseMenu | src/components/reactbits/GooeyNav.tsx:170 | The new state is `Step(old, CloseMenu)`, and the invariant is kept. |
| GooeyNav.NavController.RouteChange | src/components/reactbits/GooeyNav.tsx:71-73 | The new state is `Step(old, RouteChange(path))`, and the invariant is kept. |
| GooeyNav.NavController.ItemClick | src/components/reactbits/GooeyNav.tsx:279-282 | The new state is `Step(old, ItemClick(href))`, and the invariant is kept. |
| GooeyNav.NavController.KeyDown | src/components/reactbits/GooeyNav.tsx:80-136 | The new state is `Step(old, KeyDown(key, shift))`, and the invariant is kept. |
| I18n.LocaleCode | src/contexts/I18nContext.tsx:25-28 | A locale is stored as "en" or "pt", and as "en" exactly for English. |
| I18n.Descend | src/contexts/I18nContext.tsx:36-37 | One walk step succeeds iff the value is an object that has the segment as a key. |
| I18n.Walk | src/contexts/I18nContext.tsx:35-47 | Follows the key's segments one `Descend` at a time, failing at the first missing one. |
| I18n.Translate | src/contexts/I18nContext.tsx:31-53 | `t(key)`: the value reached in the current locale, else the value reached in English, else the key itself. |
| I18n.Segments | src/contexts/I18nContext.tsx:32 | The key's segments are at least one, and joined with "." they give the key back. |
| I18n.ResolvedInLocale | src/contexts/I18nContext.tsx:33-52 | If every segment resolves in the current locale, `t` returns that value as a string. |
| I18n.FallsBackToEnglish | src/contexts/I18nContext.tsx:38-48 | If the current locale's walk fails, `t` returns the value that the whole key reaches in English. |
| I18n.MissingKeyIsReturned | src/contexts/I18nContext.tsx:44-46 | A key that fails in both catalogs is returned unchanged. |
| I18n.EnglishIsValueOrKey | src/contexts/I18nContext.tsx:33-48 | In English, `t(k)` is the English value or `k`. |
| I18n.PortugueseIndependentOfEnglish | src/contexts/I18nContext.tsx:33-52 | A key that resolves in Portuguese does not depend on the English catalog. |
| I18n.InitialLocale | src/contexts/I18nContext.tsx:13-23 | A stored "en" or "pt" wins. Otherwise the locale is Portuguese iff the lowercased browser language starts with "pt". |
| I18n.UseI18n | src/contexts/I18nContext.tsx:67-73 | Outside a provider the hook fails with "useI18n must be used within an I18nProvider"; inside, it returns the provider's value. |
| I18n.I18nProvider.constructor | src/contexts/I18nContext.tsx:12-23 | The provider starts in `InitialLocale` of the stored value and the browser language. The document language follows it, as the effect at lines 55-58 sets it. |
| I18n.I18nProvider.SetLocale | src/contexts/I18nContext.tsx:25-28 | The locale becomes current, is stored under "locale" and reaches the document. No other storage key changes. |
| I18n.I18nProvider.T | src/contexts/I18nContext.tsx:31-53 | The two loops return exactly `Translate(catalog, locale, key)`. |
| I18n.LocaleSurvivesReload | src/contexts/I18nContext.tsx:15-28 | After `setLocale(l)`, a provider created from the same storage starts in `l`, whatever the browser language. |
| ContactForm.NameIssues | src/hooks/useContactForm.ts:6-10 | The name has no issue iff its length is in [2, 100], and every issue is about the name. |
| ContactForm.EmailIssues | src/hooks/useContactForm.ts:11-15 | The email has no issue iff it passes the email check and has at most 255 characters. |
| ContactForm.MessageIssues | src/hooks/useContactForm.ts:16-20 | The message has no issue iff its length is in [10, 2000]. |
| ContactForm.Issues | src/hooks/useContactForm.ts:5-21 | No issue iff all three fields are accepted, and some issue names a field iff that field is rejected. |
| ContactForm.Validate | src/hooks/useContactForm.ts:29 | Validation succeeds iff the trimmed fields are all accepted, and then returns the trimmed fields. Otherwise it returns all the issues, which are never empty. |
| ContactForm.ValidateIdempotent | src/hooks/useContactForm.ts:5-21 | Validating the schema's own output accepts it unchanged. |
| ContactForm.NameBoundsInclusive | src/hooks/useContactForm.ts:9-10 | A name of exactly 100 characters with no surrounding blanks is accepted, despite the "less than 100" message. |
| ContactForm.Submit | src/hooks/useContactForm.ts:27-42 | Invalid input fails before any insert. Otherwise the submission succeeds iff the database accepts, and inserts exactly the validated name, email and message with status "unread". |
| ArtworksQuery.FiltersInert | src/hooks/useArtworks.ts:21-27 | Without `featured: true`, and with no category or "all", only the published filter applies. |
| ArtworksQuery.Selected | src/hooks/useArtworks.ts:17-27 | Published, featured when `featured` is true, and in the category when one other than "all" is given. |
| ArtworksQuery.RowBefore | src/hooks/useArtworks.ts:18-19 | `display_order` ascending with nulls last, then `created_at` descending with nulls first. |
| ArtworksQuery.ServerResult | src/hooks/useArtworks.ts:14-29 | Exactly the selected rows of the table, each as often as there, in `RowBefore` order. |
| ArtworksQuery.RowBeforeIsStrictWeakOrder | src/hooks/useArtworks.ts:18-19 | The (display_order ascending, created_at descending) order is a strict weak order whose ties share both keys. |
| ArtworksQuery.ServerResultSelected | src/hooks/useArtworks.ts:14-29 | Every row the server returns is in the table, is published and passes the requested filters. |
| ArtworksQuery.Search | src/hooks/useArtworks.ts:34-45 | Null data gives []. No search returns the rows unchanged. The result is an order-preserving subsequence. A row is kept iff it matches the lowercased query, and the result is as long as the number of matching rows, so each match is kept as often as it occurs. |
| ArtworksQuery.Matches | src/hooks/useArtworks.ts:36-41 | The lowercased title, present description or some present tag contains the lowercased query. |
| ArtworksQuery.NullFieldsNeverMatch | src/hooks/useArtworks.ts:39-41 | With null description and tags, a row matches iff its title does. |
| ArtworksQuery.SearchIgnoresCase | src/hooks/useArtworks.ts:36-41 | Queries that differ only in letter case give the same result. |
| ArtworksQuery.SearchLowerCased | src/hooks/useArtworks.ts:36 | Searching for the lowercased query is searching for the query. |
| SiteSettings.SelectSettings | src/hooks/useSettings.ts:16-35 | Without a key, all public rows are returned. With a key, the result is the public row with that key, or null when there is none. It is the `maybeSingle` error iff two or more public rows have the key. |
| SiteSettings.SiteSetting | src/hooks/useSettings.ts:42-51 | No data, an array or a null row gives `fallback ?? null`. A row gives `value ?? fallback ?? null`. |
| SiteSettings.FalsyValuesKept | src/hooks/useSettings.ts:49-50 | A stored false, 0 or "" is returned and the fallback is not used. |
| SiteSettings.SiteSettingFromTable | src/hooks/useSettings.ts:27-50 | With one public row for the key, the reader returns its value if not null, otherwise the fallback, otherwise null. |
| SiteSettings.EmptyKeyGivesFallback | src/hooks/useSettings.ts:17-47 | An empty key asks for the whole public list, so the reader returns the fallback. |
| SettingsManager.InitialText | src/pages/admin/SettingsManager.tsx:102-104 | A string value is shown as itself; any other value is shown as its JSON text. |
| SettingsManager.SavedValue | src/pages/admin/SettingsManager.tsx:120-124 | Text that looks like JSON is parsed, untrimmed. Other text is sent as a string. |
| SettingsManager.LooksLikeJsonByFirstVisible | src/pages/admin/SettingsManager.tsx:122 | Text looks like JSON iff its first non-blank character is `{` or `[`. |
| SettingsManager.FirstVisibleCharDecides | src/pages/admin/SettingsManager.tsx:120-125 | Only the first non-blank character decides: `{` or `[` goes to the parser, and anything else (such as "123") stays a string. |
| SettingsManager.BlankTextStaysString | src/pages/admin/SettingsManager.tsx:120-125 | Empty or all-blank text is sent as the string itself. |
| SettingsManager.ScalarSettingSavedAsString | src/pages/admin/SettingsManager.tsx:102-125 | A number, boolean or null setting saved unedited goes back as its JSON text, as a string. |
| SettingsManager.StructuredSettingRoundTrips | src/pages/admin/SettingsManager.tsx:102-125 | An object or array setting whose JSON text parses back to it is sent back unchanged. |
| SettingsManager.SettingCard.constructor | src/pages/admin/SettingsManager.tsx:101-106 | The card starts with the initial text and the stored public flag, no unsaved changes, and nothing sent. |
| SettingsManager.SettingCard.EditValue | src/pages/admin/SettingsManager.tsx:108-111 | Editing sets the text and marks unsaved changes. Nothing else changes. |
| SettingsManager.SettingCard.SetPublic | src/pages/admin/SettingsManager.tsx:113-116 | Toggling sets the public flag and marks unsaved changes. Nothing else changes. |
| SettingsManager.SettingCard.Save | src/pages/admin/SettingsManager.tsx:118-130 | Success: exactly one `onUpdate` with the saved value and the current flag, then no unsaved changes. Parse failure: nothing sent, the "Invalid JSON format" toast, and unsaved changes kept. |
| SettingsManager.SettingCard.ShowSave | src/pages/admin/SettingsManager.tsx:170 | The Save button shows iff there are unsaved changes. |
| SettingsManager.SettingCard.IsMultiline | src/pages/admin/SettingsManager.tsx:132-133 | A text area is used iff the stored value has `typeof` "object" (null, array or object) or the text is longer than 50. |
| Admin.Gate | src/pages/admin/ArtworksManager.tsx:64-70 | The loading screen shows iff something is loading. The page shows iff nothing is loading and the user is an admin. Otherwise the user is redirected to "/". |
| Admin.NonAdminNeverSeesContent | src/pages/admin/ExhibitionsManager.tsx:60-66 | A non-admin never sees the page, whatever is loading. |
| Admin.MutationFor | src/pages/admin/ArtworksManager.tsx:183-192 | An existing record is updated by its id. A new one is inserted. The payload is passed through. |
| Admin.UpdateWhere | src/pages/admin/ArtworksManager.tsx:184-187 | `update().eq("id", id)` rewrites exactly the rows with that id, in place. |
| Admin.ApplyMutation | src/pages/admin/ArtworksManager.tsx:183-192 | An insert appends exactly one row. An update rewrites the matching rows. |
| Admin.MutationRowCount | src/pages/admin/ArtworksManager.tsx:183-192 | Saving an existing record keeps the row count. Saving a new one adds exactly one row. |
| Admin.OrText | src/pages/admin/ArtworksManager.tsx:156-163 | `s \|\| fallback`, shared by both forms: null and "" give the fallback; any other string is kept. |
| ArtworksManager.NullIfEmpty | src/pages/admin/ArtworksManager.tsx:172-174 | `s \|\| null`: null iff the text is empty; otherwise the text itself. |
| ArtworksManager.YearText | src/pages/admin/ArtworksManager.tsx:160 | The year text is empty iff there is no year. |
| ArtworksManager.InitialForm | src/pages/admin/ArtworksManager.tsx:155-166 | A new form has the listed defaults ("painting", "draft", false, 0). An existing artwork fills each field by its `\|\|` rule. |
| ArtworksManager.ToPayload | src/pages/admin/ArtworksManager.tsx:170-181 | Empty description and technique become null. An empty year becomes null, and any other year is read with `parseInt`. Every other field is copied. |
| ArtworksManager.ApplyEdit | src/pages/admin/ArtworksManager.tsx:215-311 | One input's `setFormData({ ...formData, field })`: that field only, the order through `parseInt`. |
| ArtworksManager.Merge | src/pages/admin/ArtworksManager.tsx:183-187 | The row after `update(payload)`: the id kept, every written column replaced by the payload's value. |
| ArtworksManager.Create | src/pages/admin/ArtworksManager.tsx:190 | The row after `insert([payload])`: the payload's columns under the id the database assigns. |
| ArtworksManager.NewFormPayload | src/pages/admin/ArtworksManager.tsx:155-181 | An unedited new form writes exactly the defaults. |
| ArtworksManager.ExistingFormPayload | src/pages/admin/ArtworksManager.tsx:155-181 | An unedited existing artwork is written back column by column, with the exceptions listed above the table. The year survives `toString` and `parseInt`. |
| ArtworksManager.UneditedRoundTrip | src/pages/admin/ArtworksManager.tsx:155-181 | A fully filled-in artwork with no empty text gives a payload equal to its own columns. |
| ArtworksManager.EditsIndependent | src/pages/admin/ArtworksManager.tsx:215-311 | Edits of different fields commute. A later edit of the same field overrides the earlier one. |
| ArtworksManager.UneditedSaveChangesNothing | src/pages/admin/ArtworksManager.tsx:155-192 | Saving such an artwork unedited leaves the table exactly as it was. |
| ArtworksManager.ArtworkForm.constructor | src/pages/admin/ArtworksManager.tsx:154-166 | The form starts in `InitialForm`. |
| ArtworksManager.ArtworkForm.Change | src/pages/admin/ArtworksManager.tsx:215-311 | One `setFormData` call applies exactly its edit. |
| ArtworksManager.ArtworkForm.Submit | src/pages/admin/ArtworksManager.tsx:183-192 | The write carries `ToPayload` of the current form. It is an update by id iff an existing artwork is edited. |
| ExhibitionsManager.InitialForm | src/pages/admin/ExhibitionsManager.tsx:150-158 | A new form is empty, "group", order 0, with the current year as text. An existing exhibition fills each field by its `\|\|` rule. |
| ExhibitionsManager.ToPayload | src/pages/admin/ExhibitionsManager.tsx:162-165 | The payload equals the form except that the year is read with `parseInt`. |
| ExhibitionsManager.ApplyEdit | src/pages/admin/ExhibitionsManager.tsx:199-264 | One input's `setFormData`: that field only, the order through `parseInt`. |
| ExhibitionsManager.NewFormPayload | src/pages/admin/ExhibitionsManager.tsx:150-165 | An unedited new form carries the current year as a number. |
| ExhibitionsManager.ExistingFormPayload | src/pages/admin/ExhibitionsManager.tsx:150-165 | An unedited exhibition keeps its year. A null description, location or date is sent as "", never null. |
| Admin.OrTextEmpty | src/pages/admin/ExhibitionsManager.tsx:152-154 | `s \|\| ""` is the string, or "" for null. |
| ExhibitionsManager.EditReachesPayload | src/pages/admin/ExhibitionsManager.tsx:199-264 | Title, description, location, date and type edits reach the payload verbatim. Year and display-order edits reach it through `parseInt`. |
| ExhibitionsManager.ExhibitionForm.constructor | src/pages/admin/ExhibitionsManager.tsx:149-158 | The form starts in `InitialForm` for the given current year. |
| ExhibitionsManager.ExhibitionForm.Change | src/pages/admin/ExhibitionsManager.tsx:199-264 | One `setFormData` call applies exactly its edit. |
| ExhibitionsManager.ExhibitionForm.Submit | src/pages/admin/ExhibitionsManager.tsx:167-176 | The write carries `ToPayload` of the form. It is an update by id iff an existing exhibition is edited. |
| ExhibitionsManager.ListedBeforeIsStrictWeakOrder | src/pages/admin/ExhibitionsManager.tsx:38-39 | The (year descending, display_order ascending) order is a strict weak order whose ties share both keys. |
| ExhibitionsManager.ListedBefore | src/pages/admin/ExhibitionsManager.tsx:38-39 | `year` descending, then `display_order` ascending with nulls last. |
| ExhibitionsManager.ListedYearsDescend | src/pages/admin/ExhibitionsManager.tsx:38-39 | In a listed page, years never increase down the list. |
| MessagesManager.UnreadCount | src/pages/admin/MessagesManager.tsx:60 | The count is 0 without data. Otherwise it is the number of messages with status exactly "unread", and 0 iff none is unread. |
| MessagesManager.ShowUnreadBadge | src/pages/admin/MessagesManager.tsx:72-74 | The header badge shows iff some loaded message is unread. |
| MessagesManager.Controls | src/pages/admin/MessagesManager.tsx:80-105 | The highlight, the "New" badge and the Mark Read button each appear iff the message is unread. |
| MessagesManager.ShowEmptyState | src/pages/admin/MessagesManager.tsx:114-120 | "No messages yet" shows iff the loaded list is empty. |
| MessagesManager.MarkedRead | src/pages/admin/MessagesManager.tsx:40-43 | The table after the update has the same length. The rows with the id get status "read", and all other rows are unchanged. |
| MessagesManager.MarkRead | src/pages/admin/MessagesManager.tsx:40-43 | The in-place update leaves the array equal to `MarkedRead` of its old contents. |
| MessagesManager.NewestListedFirst | src/pages/admin/MessagesManager.tsx:27-30 | In a listing that holds every message newest first, when the first message has a creation time, every message has one and none is later. |
| MessagesManager.Listed | src/pages/admin/MessagesManager.tsx:27-30 | The page's list: every row of the table, as often as there, newest first. |
| MessagesManager.MarkReadKeepsListing | src/pages/admin/MessagesManager.tsx:27-43 | Marking a message read in a newest-first listing of the table gives a newest-first listing of the updated table. |
| MessagesManager.MarkedReadMultiset | src/pages/admin/MessagesManager.tsx:40-43 | Marking read maps two row sequences with the same rows to sequences with the same rows. |
| MessagesManager.MarkReadOnlyThatRow | src/pages/admin/MessagesManager.tsx:40-43 | Marking read changes only the status of the rows with that id. |
| MessagesManager.MarkReadCount | src/pages/admin/MessagesManager.tsx:40-60 | After marking read, the unread count drops by exactly the number of unread rows with that id. |
| MessagesManager.MarkOneRead | src/pages/admin/MessagesManager.tsx:40-60 | With distinct ids, marking an unread message lowers the count by one. Marking a read one leaves it unchanged. |
| MessagesManager.SameIdUnread | src/pages/admin/MessagesManager.tsx:40-43 | With distinct ids, the unread rows with row i's id are row i alone if it is unread, and none otherwise. |
| MessagesManager.ContactSubmissionIsUnread | src/hooks/useContactForm.ts:31-40 | A row inserted by the contact form raises the unread count by one. |
| FlowingMenu.AccentStyleOf | src/components/reactbits/FlowingMenu.tsx:72-86 | No accent, or an empty one, gives the default gradient as `background`. `url(...)` gives `backgroundImage`. Anything else is `background` verbatim, including the gradient-keyword branch. |
| FlowingMenu.Marquee | src/components/reactbits/FlowingMenu.tsx:88-100 | The marquee is caption then swatch, exactly four times. |
| FlowingMenu.RenderItem | src/components/reactbits/FlowingMenu.tsx:102-126 | An item is active iff its href is the active href, and only then gets `aria-current="page"`. It carries the role (default "menuitem") and `data-menu-item`. |
| FlowingMenu.Render | src/components/reactbits/FlowingMenu.tsx:141-163 | One view per item, in order. |
| FlowingMenu.AtMostOneActive | src/components/reactbits/FlowingMenu.tsx:157 | With distinct hrefs, at most one item is active. `aria-current` is set iff the item is active. |
| FlowingMenu.NoActiveHref | src/components/reactbits/FlowingMenu.tsx:157 | Without an active href, no item is active. |
| FlowingMenu.HoverAnimates | src/components/reactbits/FlowingMenu.tsx:49-51 | The hover handlers animate iff motion is allowed and the item is mounted. |
| HorizontalFlowMenu.SameAccentRule | src/components/reactbits/HorizontalFlowMenu.tsx:74-88 | This menu classifies every accent exactly as the flowing menu does. |
| HorizontalFlowMenu.AccentStyleOf | src/components/reactbits/HorizontalFlowMenu.tsx:74-88 | This menu's own copy of the accent rule, branch for branch. |
| HorizontalFlowMenu.RenderItem | src/components/reactbits/HorizontalFlowMenu.tsx:104-128 | An item is active iff its value is selected, and only then gets `aria-current`. It carries the role and `data-menu-item`, and four marquee repetitions. |
| HorizontalFlowMenu.Render | src/components/reactbits/HorizontalFlowMenu.tsx:144-168 | One view per item, in order. |
| HorizontalFlowMenu.Click | src/components/reactbits/HorizontalFlowMenu.tsx:122 | A click reports exactly that item's value. |
| HorizontalFlowMenu.ClickSelectsOnlyThatItem | src/components/reactbits/HorizontalFlowMenu.tsx:122-163 | With distinct values, once the clicked value is selected, that item is the only active one and the only one with `aria-current`. |
| HorizontalFlowMenu.HoverAnimates | src/components/reactbits/HorizontalFlowMenu.tsx:51-53 | The hover handlers animate iff motion is allowed and the item is mounted. |
| SplitText.Segments | src/components/reactbits/SplitText.tsx:21 | The lines contain no "\n", joining them with "\n" gives the text back, and there is one more line than newlines. |
| SplitText.ReducedFacts | src/components/reactbits/SplitText.tsx:26-30 | From line `from` on, the reduced rendering has one break fewer than lines and reads as those lines joined by newlines. |
| SplitText.Reduced | src/components/reactbits/SplitText.tsx:23-33 | Under reduced motion, each line followed by a break except the last. |
| SplitText.ReducedRoundTrip | src/components/reactbits/SplitText.tsx:23-33 | Under reduced motion there are (lines - 1) breaks, and reading lines and breaks gives back exactly the text. |
| SplitText.Visible | src/components/reactbits/SplitText.tsx:52 | A space is shown as U+00A0. Every other character is unchanged. |
| SplitText.Animated | src/components/reactbits/SplitText.tsx:36-57 | One span group per line, and one span per character showing `Visible` of it. A break follows every line but the last. |
| SplitText.BreaksAgree | src/components/reactbits/SplitText.tsx:29-55 | Both renderings break after exactly the same lines: all but the last. |
| SplitText.AnimatedRecoversLines | src/components/reactbits/SplitText.tsx:40-52 | For text without U+00A0, mapping U+00A0 back to a space recovers every line. |
| Text.Split | src/components/reactbits/SplitText.tsx:21 | `split` on one character: the pieces are separator-free, at least one, and one more than the separators, and joining them gives the string back. |
| Text.Trim | src/hooks/useContactForm.ts:8 | The result is a slice `s[i..j]` of the input with only whitespace before `i` and after `j`. The result neither starts nor ends with whitespace. |
| Text.TrimIdempotent | src/hooks/useContactForm.ts:8 | Trimming twice is trimming once. |
| Text.Lower | src/hooks/useArtworks.ts:36 | Lowercasing keeps the length and maps each character separately. |
| Text.LowerIdempotent | src/hooks/useArtworks.ts:36 | Lowercasing twice is lowercasing once. |
| Numbers.IntToString | src/pages/admin/ArtworksManager.tsx:160 | `toString` of an integer is never empty. `ParseIntOfIntToString` is its inverse. |
| Numbers.ParseInt | src/pages/admin/ArtworksManager.tsx:175 | `parseInt` is NaN iff no digit follows the leading blanks and the optional sign. |
| Numbers.ParseIntOfIntToString | src/pages/admin/ExhibitionsManager.tsx:155-164 | `parseInt(String(n)) === n` for every integer n written in plain decimal, which in JavaScript means \|n\| < 10^21. |

## Left out

- Database access, React Query caching, retries, toasts on network success, and query invalidation are left out. Tables are sequences of rows. The server's filtering and ordering are stated as specifications (`ServerResult`, `ListedInOrder`, `Listed`), not as code.
- The delete buttons of the admin lists are a single network call with no client-side logic.
- The contact form's database error is a parameter (`dbError`); the network round trip itself is not modelled.
- The artwork search's `options.search` and the settings key are treated as JavaScript strings: absent and "" behave alike, as the source's truthiness tests make them.
- GSAP and framer-motion animations, `findClosestEdge` and the split-text delay formula use floating point and timing only, and change no state.
- Native Tab movement is left to the browser. A Tab that the trap does not handle leaves `focused` as it was in the model, which does not know the browser's tab order.
- The DOM is reduced to the attributes that the focus selectors read. Layout, visibility and the inertness of the page behind the overlay are not modelled.
- Numbers.IntToString: always writes plain decimal digits. JavaScript's `String(n)` switches to exponent notation ("1e+21") for \|n\| >= 10^21, and `parseInt` of that is not n. Years and display orders never come near that bound.
- Numbers.ParseInt: models `parseInt` only on decimal text. Hexadecimal prefixes and radix arguments are not modelled, and numbers are integers. Clearing an order field gives `NaN` as in the source. Writing `NaN` to a column is modelled as writing null (`ArtworksManager.Merge`), which is what JSON serialisation of the payload does.
- Text.Lower: maps only the ASCII letters. Full Unicode case mapping is a foreign primitive.
- String lengths are counted in Unicode characters, not UTF-16 code units. They differ only for characters outside the Basic Multilingual Plane.
- SplitText.Animated: one span per Unicode character, whereas `line.split("")` splits into UTF-16 code units and so gives two spans for a character outside the Basic Multilingual Plane.
- `JSON.parse`, `JSON.stringify` and zod's email pattern are function parameters, not implementations.
- Translation catalogs are trees of objects and strings. Arrays, numbers, and keys inherited from the object prototype (which `in` would find) are not modelled.
- `created_at` is a number instant rather than a timestamp string. The date formatting of the messages page is left out.
- The `description` column and the extra message fields of the messages page are display only.
