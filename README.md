# ngx_security_headers in Dafny

A model of the nginx header filter `ngx_http_security_headers_module`. When `security_headers` is on, each response:

- may get `X-Content-Type-Options`, `X-XSS-Protection` and `X-Frame-Options`, each under its own condition (`Policy.PlanSites`);
- always has `x-powered-by` and `server` cleared.

When it is off, the header list is left alone. Each header is set or cleared by one call of the module's own routine `ngx_set_headers_out_by_search`. That routine works on nginx's response header list `r->headers_out.headers`, an `ngx_list_t`:

- The list is a chain of parts.
- Each part is an array of `ngx_table_elt_t` with room for `nalloc` elements.
- An element whose `hash` is 0 is soft-deleted. Lookups skip it and nginx does not send it.

The model has five modules:

- `Wrappers`: `Option`.
- `Ascii`: `ngx_tolower`, `ngx_strlow` and `ngx_strcasecmp` over characters. The end of a sequence plays the part of the terminating NUL byte.
- `Headers`: the header list and the routine.
  - The class `HeaderList` holds the list as a sequence of parts (`parts: seq<seq<Element>>`) and its `nalloc`.
  - Its methods are the loop of the routine (`FindActive`), `ngx_list_push` (`Push`), the write of the slot (`Store`) and the routine itself (`SetBySearch`).
  - Each method is proved equal to a specification function: `FirstMatch`, `PushSpec`, `StoreSpec` and `SetBySearchSpec`.
  - Allocation is an input. `Alloc(partOk, lowcaseOk)` says whether the pool can supply a new list part and the `lowcase_key` buffer.
- `HeaderProps`: what the routine does to the list, stated over positions and over the list read in list order (`Flatten`).
- `Config`: the location configuration. It covers the enum constants and the directive value tables, the unset state of a fresh configuration, and the merge of a child configuration with its parent.
- `Policy`: the filter.
  - `Plan` is the list of calls the filter makes for given settings, status and content-type test.
  - `ApplyPlan` folds `SetBySearchSpec` over that list.
  - The method `Filter` makes the calls on a `HeaderList` and is proved to leave exactly `ApplyPlan(old list, Plan(...))`.

The filter uses the routine as written, including the slip at line 302 described under Findings. The corrected routine, `SetBySearchFixed` / `SetBySearchFixedSpec`, exists beside it, and the intended properties are proved about it. The filter is left on the as-written routine because that is what the module does.

### Behaviour the code does not have

- The routine does not keep "at most one active entry per name", and it does not deactivate later duplicates. The scan stops at the first active match. `HeaderProps.LaterDuplicatesUntouched` shows that every later match stays as it was.
- The scan skips soft-deleted entries, so a repeated clear of a name with no active entry appends a new placeholder each time (`HeaderProps.ClearLeavesNoMatch`). A name whose active entry is not at index 0 of its part is never cleared: each clear soft-deletes slot 0 of that part instead (`HeaderProps.RepeatedClearDoesNotAppend`).
- Setting a header twice is not the same as setting it once (`HeaderProps.SetTwiceClobbers`). The corrected routine is idempotent for a non-empty value and for any allocation outcome that is the same on both calls (`HeaderProps.FixedIdempotent`).
- `X-Content-Type-Options` is gated by the content-type test as well as by status 200 (lines 148-149).
- `X-XSS-Protection` and `X-Frame-Options` are not gated by any content type (lines 158-159, 173-174).
- The return value of every call is ignored. The filter is not fail-fast: every later call still runs, on the list as the failed call left it (`Policy.ApplyPlan`, `Policy.ApplyPlanFirst`).
- The code sets no Strict-Transport-Security and no Referrer-Policy header. It has no token-hiding switch and no header deny-list beyond `x-powered-by` and `server`, and those two are cleared whenever the module is enabled.

## Model

| member | source | states |
|---|---|---|
| Ascii.ToLower | src/ngx_http_security_headers_module.c:324 | an upper-case ASCII letter becomes the lower-case letter at the same offset; every other character is left alone; the result is never upper case |
| Ascii.Lower | src/ngx_http_security_headers_module.c:319-324 | the lower-cased key stored in `lowcase_key` has the key's length and is `ToLower` of the key character by character |
| Ascii.StrCaseCmp | src/ngx_http_security_headers_module.c:296 | `ngx_strcasecmp`: lower-cases both bytes and stops at the first difference, returning it, or at the terminator, returning 0; what a result of 0 means is stated by `StrCaseCmpZeroIff` |
| Ascii.StrCaseCmpRefl | src/ngx_http_security_headers_module.c:295-296 | `ngx_strcasecmp` reports equality for a key compared with itself |
| Ascii.StrCaseCmpZeroIff | src/ngx_http_security_headers_module.c:295-296 | for equal-length keys without NUL bytes, the comparison is 0 exactly when the lower-cased keys are equal (both directions) |
| Headers.Matches | src/ngx_http_security_headers_module.c:288-300 | the element the scan stops at: hash not 0, a key of the same length, and `ngx_strcasecmp` reporting 0 |
| Headers.FirstIndex | src/ngx_http_security_headers_module.c:276-304 | within one part: the first index at or after `from` whose element is active with a matching key, or none when no such index exists |
| Headers.FirstMatchFrom | src/ngx_http_security_headers_module.c:276-304 | over the parts from `from` on, in order: the first position holding an active element with a key of the same length that compares equal ignoring case; no match before it; none exactly when no such element exists |
| Headers.PushSpec | src/ngx_http_security_headers_module.c:305-307 | `ngx_list_push` keeps the list well formed and fails exactly when the last part is full and no new part can be allocated; a failure leaves the list alone; otherwise one slot is appended at the end in list order and every existing element keeps its position and contents |
| Headers.Written | src/ngx_http_security_headers_module.c:311-324 | the written element has the given key and value, hash 0 exactly for an empty value and 1 otherwise, and `lowcase_key` the lower-cased key, or NULL when its buffer could not be allocated |
| Headers.StoreSpec | src/ngx_http_security_headers_module.c:305-326 | storing into the found slot, or into a pushed one, keeps the list well formed |
| Headers.Target | src/ngx_http_security_headers_module.c:302 | with `h = hi` the slot chosen exists exactly when a match exists, and it is element 0 of the part that holds the match |
| Headers.SetBySearchSpec | src/ngx_http_security_headers_module.c:257-327 | the routine as written: store at `Target`, element 0 of the matching part, or into a pushed slot; what it does to the list is stated by the `HeaderProps` lemmas |
| Headers.SetBySearchFixedSpec | src/ngx_http_security_headers_module.c:302 | the routine with `h = &hi[i]`: store at the first match itself, or into a pushed slot; its properties are `FixedWritesMatchedSlot`, `FixedKeepsOtherHeader` and `FixedIdempotent` |
| Headers.HeaderList.FindActive | src/ngx_http_security_headers_module.c:276-304 | the loop over parts and elements returns exactly `FirstMatch` of the list |
| Headers.HeaderList.Push | src/ngx_http_security_headers_module.c:305-307 | the pushed list and the slot are those of `PushSpec`; the list stays well formed |
| Headers.HeaderList.Store | src/ngx_http_security_headers_module.c:305-326 | the return code and the new list are those of `StoreSpec`; the list stays well formed |
| Headers.HeaderList.SetBySearch | src/ngx_http_security_headers_module.c:257-327 | the return code and the new list are those of `SetBySearchSpec` (search, then store at `h = hi`); the list stays well formed |
| Headers.HeaderList.SetBySearchFixed | src/ngx_http_security_headers_module.c:302 | the routine with `h = &hi[i]`: the return code and the new list are those of `SetBySearchFixedSpec` |
| HeaderProps.SearchInListOrder | src/ngx_http_security_headers_module.c:276-304 | the search's result is the first active matching element of the whole list read in list order, and it finds nothing exactly when the list holds no such element |
| HeaderProps.AppendsWhenNoMatch | src/ngx_http_security_headers_module.c:305-310 | with no active match: a failed push returns NGX_ERROR and changes nothing; otherwise the list in list order is the old list plus exactly the written element, and the result is NGX_OK exactly when `lowcase_key` was allocated |
| HeaderProps.OverwritesPartHead | src/ngx_http_security_headers_module.c:302-305 | with an active match: the number of parts and their lengths are unchanged, and exactly one element changes, element 0 of the part holding the match, which becomes the written element |
| HeaderProps.TargetIsMatchOnlyAtPartHead | src/ngx_http_security_headers_module.c:302 | the written slot is the matching element exactly when the match is at index 0 of its part; otherwise slot 0 held a non-matching element and the match is left as it was |
| HeaderProps.ErrorCases | src/ngx_http_security_headers_module.c:305-322 | the result is NGX_ERROR exactly when the push fails or the `lowcase_key` allocation fails; a failed push changes nothing; a failed `lowcase_key` allocation leaves key, value and hash written and `lowcase_key` NULL in the chosen slot, element 0 of the matching part or the element appended at the end |
| HeaderProps.WrittenMatches | src/ngx_http_security_headers_module.c:311-317 | an element written with a non-empty value is active and matches its own key |
| HeaderProps.SetThenFind | src/ngx_http_security_headers_module.c:276-317 | after a successful call with a non-empty value, searching for the same key finds an element holding that value |
| HeaderProps.ClearLeavesNoMatch | src/ngx_http_security_headers_module.c:288-290 | clearing a name with no active element appends one soft-deleted element and still leaves no active match, so the next clear appends again |
| HeaderProps.LaterDuplicatesUntouched | src/ngx_http_security_headers_module.c:302-303 | every active match other than the first is left unchanged and still active after the call |
| HeaderProps.OverwritesOtherHeader | src/ngx_http_security_headers_module.c:302 | on a part holding another header and then a match, the other header is replaced by the written element and the old match stays |
| HeaderProps.SetTwiceClobbers | src/ngx_http_security_headers_module.c:302 | after another header, a first call appends the header and a second identical call overwrites the other header with it |
| HeaderProps.RepeatedClearDoesNotAppend | src/ngx_http_security_headers_module.c:288-303 | on a part holding another header and then an active match, a clear soft-deletes the other header and leaves the match active, and a second clear changes nothing more |
| HeaderProps.FixedKeepsOtherHeader | src/ngx_http_security_headers_module.c:302 | the corrected routine on the same list writes the matching element and keeps the other header |
| HeaderProps.FixedWritesMatchedSlot | src/ngx_http_security_headers_module.c:302-305 | with the corrected routine and an active match, exactly the matching element changes, in place, and the result is NGX_OK exactly when `lowcase_key` was allocated |
| HeaderProps.FixedIdempotent | src/ngx_http_security_headers_module.c:302 | with the corrected routine, a second call with the same non-empty value leaves the list as the first call left it, for any allocation outcome that is the same on both calls |
| Config.XssOfCode | src/ngx_http_security_headers_module.c:10-14 | XSS constants 0 to 3 are exactly the used ones, and each maps back to its constant |
| Config.FrameOfCode | src/ngx_http_security_headers_module.c:10-17 | frame-options constants 0 to 2 are exactly the used ones, and each maps back to its constant |
| Config.EnumLookup | src/ngx_http_security_headers_module.c:31-44 | a directive argument selects the value of a table entry whose name matches it ignoring case; none is selected exactly when no entry matches |
| Config.XssTableNames | src/ngx_http_security_headers_module.c:31-37 | "off", "on", "block" and "omit" select off, on, block and omit |
| Config.FrameTableNames | src/ngx_http_security_headers_module.c:39-44 | "sameorigin", "deny" and "omit" select sameorigin, deny and omit |
| Config.CreateLocConf | src/ngx_http_security_headers_module.c:207-216 | the result is NULL exactly when the pool cannot supply the structure; otherwise enable, xss and fo are unset |
| Config.MergeValue | src/ngx_http_security_headers_module.c:227-240 | `ngx_conf_merge_value` / `ngx_conf_merge_uint_value`: the child's value if set, else the parent's if set, else the default |
| Config.MergeLocConf | src/ngx_http_security_headers_module.c:227-240 | every merged field is set: the child's value if set, else the parent's, else off, block and sameorigin |
| Config.MergeAlongIsInnermost | src/ngx_http_security_headers_module.c:227-240 | merging level by level gives each setting its innermost explicit value, and its default where no level sets it |
| Policy.XssValue | src/ngx_http_security_headers_module.c:162-168 | the X-XSS-Protection value: "1" for on, "1; mode=block" for block, "0" for off |
| Policy.FrameValue | src/ngx_http_security_headers_module.c:177-181 | the X-Frame-Options value: SAMEORIGIN or DENY |
| Policy.NoSniffCalls | src/ngx_http_security_headers_module.c:148-155 | the nosniff call, made only for status 200 and a content type in the nosniff set |
| Policy.XssCalls | src/ngx_http_security_headers_module.c:158-170 | the X-XSS-Protection call, made only for a status other than 304 and a mode other than omit |
| Policy.FrameCalls | src/ngx_http_security_headers_module.c:173-183 | the X-Frame-Options call, made only for a status other than 304 and a mode other than omit |
| Policy.Plan | src/ngx_http_security_headers_module.c:143-194 | the calls the filter makes, in order: none when the module is off, else the three guarded calls and the two clears; its properties are `PlanSites`, `PlanOrder` and `PlanValues` |
| Policy.PlanSites | src/ngx_http_security_headers_module.c:143-194 | for each call site, the filter calls the routine there exactly when the module is enabled and: status 200 with a nosniff content type; status not 304 with xss not omit; status not 304 with fo not omit; always for the two clears |
| Policy.PlanOrder | src/ngx_http_security_headers_module.c:143-194 | nothing is called when the module is off; otherwise the calls follow the order of the source, each site at most once, with the two clears last |
| Policy.PlanValues | src/ngx_http_security_headers_module.c:151-194 | the key and the value passed at each site: nosniff; "1", "1; mode=block", "0"; SAMEORIGIN, DENY; an empty value exactly for the clears of x-powered-by and server |
| Policy.ApplyPlan | src/ngx_http_security_headers_module.c:148-194 | running the calls one after the other keeps the list well formed |
| Policy.ApplyPlanFirst | src/ngx_http_security_headers_module.c:148-194 | the return codes are ignored: after the first call, the remaining calls run on whatever list it left, NGX_ERROR or not |
| Policy.Step | src/ngx_http_security_headers_module.c:154 | one call on the list the earlier calls left extends the fold by that call |
| Policy.SetSecurityHeaders | src/ngx_http_security_headers_module.c:147-183 | the three conditional calls leave exactly the fold of their segments of the plan |
| Policy.Filter | src/ngx_http_security_headers_module.c:132-199 | the filter leaves exactly `ApplyPlan` of the old list and `Plan`; with the module off the list is unchanged |
| Policy.DefaultsOnOk | src/ngx_http_security_headers_module.c:148-194 | with all defaults and the module on, a 200 response with a nosniff type gets nosniff, "1; mode=block", SAMEORIGIN and the two clears, in that order |
| Policy.NotModifiedOnlyClears | src/ngx_http_security_headers_module.c:158-194 | a 304 response only gets the two clears |

## Left out

- The list helpers `ngx_list_init` and `ngx_list_push` and the string helpers `ngx_strlow` and `ngx_strcasecmp` come from nginx's own sources, which are not part of this model. Each is modelled from its documented behaviour in nginx.
- Module registration, the directive table and the module context (lines 61-123) are static nginx metadata with no behaviour of their own.
- The install of the filter into the header-filter chain and the calls of the next filter (lines 126-128, 144, 198, 246-255) are host plumbing. Neither the filter's own return value nor the next filter is modelled.
- Content-type matching (`ngx_http_test_content_type`, lines 148-149) and the construction of `nosniff_types` by `ngx_http_merge_types` (lines 229-235) are nginx library code. Whether the content type is in the nosniff set is a boolean input, so the `NGX_CONF_ERROR` return of a failed type merge is not modelled either.
- Pool allocation is modelled only as "may fail". This covers the configuration structure in `create_loc_conf` (lines 207-210, `CreateLocConf` returns None), the new list part in `ngx_list_push` and the `lowcase_key` buffer (line 319). Memory contents are not modelled: a freshly pushed slot is a fixed `Unset` element that is fully overwritten before use.
- The header key and value are stored as copies of the strings. The model does not capture that nginx points at the caller's static strings.
- Bytes are modelled as characters and the enable flag as a boolean. Once the flag directive and the merge have run, `enable` holds only 0 or 1, so `1 != enable` at line 143 is `!enable`.
- nginx's separate emission of the built-in Server header from `r->headers_out.server` is not visible in this file.
- Ascii.StrCaseCmp: the end of a key stands for its NUL terminator. This matches nginx for NUL-terminated keys; a key buffer without a terminator, which nginx would read past, is not modelled.
- Headers.StoreSpec: its own contract states only that the list stays well formed. What it writes, and where, is stated by the lemmas of `HeaderProps`.
- Policy.ApplyPlan: its own contract states only that the list stays well formed. What each call does is stated by the lemmas about `SetBySearchSpec` in `HeaderProps`.
- Policy.Filter: the return code of the filter, which is that of the next filter, is not modelled.
- The allocation outcome is given once per call site (`alloc: Site -> Alloc`), which is enough because each site is called at most once per response.

## Findings

| source | as written | input that shows it | evidently intended | confidence | as-written member | corrected member |
|---|---|---|---|---|---|---|
| src/ngx_http_security_headers_module.c:302 | `h = hi;` makes the routine write element 0 of the part that holds the match, not the matching element | a part holding `Server: x` and then `X-Frame-Options: SAMEORIGIN`, set to `DENY`: the Server element is replaced and the old X-Frame-Options stays. Likewise, clearing `x-powered-by` when it is not at index 0 soft-deletes whatever header is at index 0 and leaves X-Powered-By active. | `h = &hi[i];`: overwrite the matching element in place | not executed | HeaderProps.OverwritesOtherHeader, HeaderProps.SetTwiceClobbers | HeaderProps.FixedKeepsOtherHeader, HeaderProps.FixedWritesMatchedSlot, HeaderProps.FixedIdempotent |
