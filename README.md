# dbj-component: component contract model

A model of the component contract of the dbj-component system, a COM-like
protocol in which every plugin DLL exports three fixed entry points: a
version query, a factory, and an unload-readiness query. The header
`dbj-component.h` supplies the parts every component expands through macros:

- the `dbj_component_version` record (three `unsigned` numbers and a
  0xFF-byte description buffer) and the lazily filled, cached query
  `dbj_component_get_version` (module `ComponentVersion`, class
  `VersionQuery`, whose fields are the query's static `done_` flag and
  `the_version_` record, built from the macro arguments `M, N, P, S_`);
- the `strncpy_s` call that fills the description, modelled after
  ISO/IEC 9899:2011 Annex K, section K.3.7.1.4, together with `strlen` and
  `strnlen_s` (module `AnnexK`; `StrncpyS` works on the buffer array in
  place and is proved against the function `StrncpySpec`);
- the lifecycle reference counter `component_counter_` with its constructor
  and destructor hooks and `dbj_component_can_unload_now` (module
  `ComponentUnloader`, class `Unloader`, with a ghost history of hook firings);
- the three exported symbol names (module `ComponentExports`).

A description of 255 or more bytes is not truncated: `strncpy_s`
reports a runtime-constraint violation, sets the first character to NUL and
calls the constraint handler, so the stored description reads as empty
(`ComponentVersion.DescriptionTooLong`). The model follows the path on which
the handler returns and records the call in `VersionQuery.handlerFired`.

A C `char` is one byte, so texts and the description buffer are sequences
of bytes (`AnnexK.Byte`), and every length limit counts bytes of the literal
in the execution character set, not characters of its source text.

The header's comment (dbj-component.h:74-75) speaks of a description "up to
0xFF chars long", but the 0xFF-byte buffer holds at most 254 bytes of text
before its NUL: a text of exactly 255 bytes is already the range violation
of `DescriptionTooLong`, which leaves the description empty (and, with the
default handler, ends the process).

## Model

| member | source | states |
|---|---|---|
| AnnexK.CStrLen | dbj-component.h:91 | `strlen(S_)` is the index of the first NUL (or the whole literal): every earlier character is non-NUL and the character at the result is NUL |
| AnnexK.Constraint | dbj-component.h:91 | the runtime-constraint of the `strncpy_s` call: zero size is invalid; the range error occurs exactly when `count >= destsz` and the source's C length is at least `destsz`; otherwise the call succeeds |
| AnnexK.StrnlenS | dbj-component.h:91 | `strnlen_s` never exceeds its bound or the C length, and is below the bound exactly when the C length is |
| AnnexK.StrncpySpec | dbj-component.h:91 | `strncpy_s` keeps the buffer length, never changes a character at or beyond `destsz`, and reports the runtime-constraint outcome |
| AnnexK.StrncpyStoresPrefix | dbj-component.h:91 | after a successful `strncpy_s` the copied count fits below `destsz` and the stored C string is exactly the copied prefix of the source |
| AnnexK.StrncpyViolationEmpties | dbj-component.h:91 | on a too-small buffer the first character becomes NUL and the stored C string is empty, not a truncated text |
| AnnexK.FullCopyConstraint | dbj-component.h:91 | with `count = strlen(src)` the copy succeeds iff the text is shorter than `destsz`, and fails with the range error iff it is not |
| AnnexK.StrncpyS | dbj-component.h:91 | the in-place copy writes nothing at or beyond `destsz` and leaves the array equal to `StrncpySpec` of its old contents |
| ComponentVersion.ToUnsigned | dbj-component.h:78-80 | the macro arguments become 32-bit `unsigned` values: unchanged when in range, otherwise congruent modulo 2^32 |
| ComponentVersion.DescriptionFits | dbj-component.h:81-91 | a NUL-free text of at most 254 bytes is stored exactly, followed by NUL and the remaining zeros, in the 0xFF buffer |
| ComponentVersion.DescriptionTooLong | dbj-component.h:81-91 | a text of 255 or more bytes is a constraint violation whose first byte is NUL, so the description reads as empty, not truncated; the zero tail is the model's choice for the unspecified bytes |
| ComponentVersion.VersionQuery.constructor | dbj-component.h:87-88 | before the first call `done_` is false, the numbers are `M, N, P` as `unsigned`, and the description is all zeros |
| ComponentVersion.VersionQuery.GetVersion | dbj-component.h:84-95 | every call returns the same record, determined by `M, N, P, S_` alone; `done_` is set and stays set; once set, the description is never rewritten; the copy stays inside the 0xFF buffer |
| ComponentUnloader.CountTotal | dbj-component.h:22-32 | every hook firing is counted either as a load or as an unload |
| ComponentUnloader.CountAppend | dbj-component.h:22-32 | hook counts of a concatenated history add up |
| ComponentUnloader.LoadsThenUnloads | dbj-component.h:22-36 | after `n` load hooks then `m` unload hooks the counter is `n - m`; so `n` and `n` give zero (can unload) and more loads than unloads give a positive counter |
| ComponentUnloader.NeverNegative | dbj-component.h:22-32 | when every destructor hook fires while a load is unmatched, no prefix of the hook history leaves the counter negative (by induction on the history) |
| ComponentUnloader.Unloader.constructor | dbj-component.h:22 | the counter starts at 0 with no hook fired |
| ComponentUnloader.Unloader.OnLoad | dbj-component.h:24-27 | the constructor hook adds exactly one to the counter, which stays non-negative |
| ComponentUnloader.Unloader.OnUnload | dbj-component.h:29-32 | the destructor hook subtracts exactly one from the counter, which stays non-negative |
| ComponentUnloader.Unloader.CanUnloadNow | dbj-component.h:33-36 | a read-only query, true iff the counter is zero, i.e. iff every load so far was matched by an unload |
| ComponentExports.ExportName | dbj-component.h:103-115 | the name each entry point is exported under resolves back to that entry point |
| ComponentExports.ExportOf | dbj-component.h:103-115 | every name other than the three exact, case-sensitive export names resolves to nothing |
| ComponentExports.ExportOfSound | dbj-component.h:103-115 | a name that resolves is exactly the exported name of the entry point it resolves to |
| ComponentExports.ExportNamesDistinct | dbj-component.h:113-115 | the three exported names are pairwise distinct |

## Left out

- `DBJ_COMPONENT_LOCK_UNLOCK_FUNCTION` (dbj-component.h:56-70): a Win32 `CRITICAL_SECTION` lock whose purpose is mutual exclusion between threads; concurrency is not modelled.
- Atomicity of `_InterlockedIncrement`/`_InterlockedDecrement`: the hooks are modelled as sequential updates.
- The platform loader firing the `constructor`/`destructor` attributes: the hooks are explicit method calls.
- ComponentUnloader.Unloader.OnUnload: requires a positive counter because the platform fires the destructor only for a mapped module; the source itself never checks for underflow.
- ComponentUnloader.Unloader.OnLoad: does not model the 32-bit wrap-around of `long`, because the counter never exceeds the number of mappings.
- ComponentVersion.VersionQuery.GetVersion: follows the path on which the runtime-constraint handler returns; the default Microsoft handler ends the process, which is not modelled.
- AnnexK.StrncpySpec: Annex K leaves the bytes after the written NUL unspecified; the model leaves them unchanged. On success the Microsoft library also leaves them in place in a release build, but its debug build fills them with 0xFE.
- ComponentVersion.DescriptionTooLong: the all-zero buffer after the range error is the model's choice for the bytes Annex K leaves unspecified. The Microsoft library copies until space runs out before it resets `dest[0]`, so a release build leaves NUL followed by bytes 1 to 254 of the text, and a debug build leaves NUL followed by its 0xFE fill. Either way the description reads as empty.
- The encoding of the `S_` literal into bytes happens at compile time and is not modelled: the literal is given as its bytes.
- AnnexK.Constraint: the null-pointer, `RSIZE_MAX` and overlapping-object constraints of `strncpy_s` cannot arise for a static buffer and a string literal and are not modelled.
- The factory entry point and its unchecked function-pointer casts (dbj-component.h:117-128), dynamic-library mapping and symbol resolution: platform calls whose behaviour is not part of this model.
- The module loader `dbj-component-loader.h` is not part of this model, nor are the sample components A and B.
- `host_console_app/dbj-c-host.c`: a demo driver that prints version information and exercises the sample components; printing is I/O.
