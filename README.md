# Exergy dashboard: parameter catalog, system registry and chart layout

This project models, in Dafny, the parts of the exergy dashboard that are
computation rather than user interface.

- **The parameter catalog.** `COOLING_ASGP` and `COOLING_GSHP` are the
  ordered tables of the input parameters of the air-source and ground-source
  cooling cases. Each parameter has an explanation, a LaTeX label, a default
  value, a range, a unit and an input step. `SYSTEM_CASE` files the tables
  under application and then topology.
  - A range bound is either a number or a short text naming another parameter
    (`T_a_int_in-2`, `T_0+2`, `T_0`). The model writes such a bound as the
    tagged value `Lit(n)` or `Ref(id, offset)`.
  - The model gives the text form of a bound (`Written`), the reading of that
    text back (`Load`) and the resolution of a bound against parameter values
    (`Resolve`).
  - The integrity facts of both tables are proved:
    - identifiers are distinct;
    - every reference names a parameter of the same table, declared earlier;
    - steps are positive;
    - every range written with two numbers has its low end strictly below its
      high end;
    - every default lies inside its range, resolved against the table's own
      defaults.
- **The system registry** of `app.py`. The session state keeps a dictionary
  `systems` from name to system, plus a counter `system_count`.
  - `create_system` increments the counter and builds a system named
    `System <count>`.
  - `add_system` stores that system under its name.
  - `remove_system` pops a name.
  - The model is the class `Registry.SessionRegistry`. Its invariant is that
    every key is `System j` for some `j` from 1 to the counter, and names the
    system stored under it. So an added system never overwrites an entry.
- **The multiview layout** of `create_dynamic_multiview`.
  - The chart at position `n` takes `colors[n]`. The palette is ten colours
    repeated fifty times.
  - The charts are cut into rows of `cols` by the generator `chunk_charts`.
  - `Multiview.ChunkCharts` is that generator's `for` loop. It is proved
    against the recursive reference definition `Multiview.Chunks`, which has the
    partition lemmas.

Files:
- `wrappers.dfy`: `Option`, `Result`, `Outcome`.
- `decimal.dfy`: decimal printing of naturals and reading it back. It is used
  for `System {n}` and for bound offsets.
- `catalog.dfy`: parameter, bound, resolution and table well-formedness.
- `systems.dfy`: the two tables, `SYSTEM_CASE` and the lemmas about them.
- `multiview.dfy`: palette indexing and row chunking.
- `registry.dfy`: the session registry.

## Model

| member | source | states |
|---|---|---|
| Decimal.ValueOfStr | app.py:131 | reading back the decimal text an f-string prints for a count gives the count, so distinct counts print differently |
| Catalog.SignAt | src/exergy_dashboard/system.py:23 | the position returned is the first sign character of the text, or its length when there is none |
| Catalog.ParseRef | src/exergy_dashboard/system.py:23 | whatever symbolic-bound text is accepted reads as a reference to an identifier |
| Catalog.LoadWritten | src/exergy_dashboard/system.py:23 | for every bound with an identifier name, reading back the text or number the table writes for it (`<id>`, `<id>+c`, `<id>-c`) gives the same bound |
| Catalog.LoadBareRef | src/exergy_dashboard/system.py:101 | the bare-identifier form `<id>` reads back as a zero-offset reference |
| Catalog.LoadSignedRef | src/exergy_dashboard/system.py:31 | the forms `<id>+c` and `<id>-c` read back as offsets `c` and `-c` |
| Catalog.Resolve | src/exergy_dashboard/system.py:23 | a bound fails to resolve exactly when it names a parameter with no value, and the failure names that parameter |
| Catalog.ResolveRange | src/exergy_dashboard/system.py:7 | a range resolves exactly when both of its bounds resolve |
| Catalog.ResolveLocal | src/exergy_dashboard/system.py:23 | a bound depends only on the value of the one parameter it names |
| Catalog.ResolveShift | src/exergy_dashboard/system.py:31 | moving the referenced value by `d` moves the resolved bound by `d` |
| Catalog.IndexOf | src/exergy_dashboard/system.py:2-83 | the position found holds the identifier, and no earlier position does |
| Catalog.CertifiedTable | src/exergy_dashboard/system.py:3-82 | a table with distinct identifiers, each entry with checked bound targets, positive step, ordered numeric range and default inside the range, is well formed, and each range resolves to the checked values |
| Catalog.ResolvesFromPredecessors | src/exergy_dashboard/system.py:11-50 | when every reference points backwards, each parameter's range resolves from the defaults of the parameters declared before it alone, to the same values as from all defaults, so resolution never cycles |
| Catalog.FirstHasLiteralBounds | src/exergy_dashboard/system.py:7 | with backward references, the first parameter has only numeric bounds |
| Catalog.Defaults | src/exergy_dashboard/system.py:2-83 | the dictionary of defaults has exactly the identifiers of the table as keys |
| Catalog.DefaultsAt | src/exergy_dashboard/system.py:2-83 | the default dictionary of a table with distinct identifiers maps each identifier to its own entry's default |
| Systems.GetSpecs | src/exergy_dashboard/system.py:181-191 | a missing application fails with `KeyError(application)`; a present application without the topology fails with `KeyError(topology)`; the lookup succeeds exactly when both keys are present |
| Systems.GetSpecsCases | src/exergy_dashboard/system.py:181-191 | a lookup succeeds exactly for COOLING with ASHP or GSHP and returns the matching table; COOLING with any other topology, and HEATING and HOT WATER with any topology, fail with `KeyError(topology)`; other applications fail with `KeyError(application)`; every table returned is well formed |
| Systems.AsgpIds | src/exergy_dashboard/system.py:2-83 | the air-source table holds its ten identifiers in declared order |
| Systems.GshpIds | src/exergy_dashboard/system.py:88-177 | the ground-source table holds its eleven identifiers in declared order |
| Systems.AsgpUnique | src/exergy_dashboard/system.py:2-83 | the air-source identifiers are pairwise distinct |
| Systems.GshpUnique | src/exergy_dashboard/system.py:88-177 | the ground-source identifiers are pairwise distinct |
| Systems.AsgpWellFormed | src/exergy_dashboard/system.py:1-84 | the air-source table has distinct identifiers, references to earlier parameters only, positive steps, ordered numeric ranges and every default in its resolved range |
| Systems.GshpWellFormed | src/exergy_dashboard/system.py:87-178 | the ground-source table is well formed in the same sense |
| Systems.AsgpRanges | src/exergy_dashboard/system.py:3-82 | the resolved ranges of the air-source table, for example T_a_ext_out in [34, 80] and T_r_ext_A in [44, 100] |
| Systems.GshpRanges | src/exergy_dashboard/system.py:89-176 | the resolved ranges of the ground-source table, for example T_g in [-30, 32] and T_r_ext_G in [21, 30] |
| Systems.AsgpBoundTexts | src/exergy_dashboard/system.py:23-47 | the symbolic air-source bounds are written as `T_a_int_in-2`, `T_0+2`, `T_a_int_out-2`, `T_a_ext_out+2` |
| Systems.GshpBoundTexts | src/exergy_dashboard/system.py:101-133 | the symbolic ground-source bounds are written as `T_0`, `T_a_int_in-2`, `T_a_int_out-2`, `T_g+2`, `T_0-2` |
| Systems.LoadExamples | src/exergy_dashboard/system.py:23 | the texts `T_a_int_in-2`, `T_0+2`, `T_0` read as `Ref("T_a_int_in", -2)`, `Ref("T_0", 2)`, `Ref("T_0", 0)` |
| Systems.ResolveExample | src/exergy_dashboard/system.py:14-23 | `T_a_int_in-2` with T_a_int_in at 24.0 resolves to 22.0 |
| Multiview.ChartColor | app.py:30 | the chart at position `n` gets colour `n mod 10` of the palette when `n < 500`, and `IndexError(n)` otherwise |
| Multiview.PaletteCycles | app.py:16-27 | the palette has 500 entries and entry `n` is base colour `n mod 10` |
| Multiview.ChunksFlatten | app.py:76-78 | joining the rows gives back the charts, in order |
| Multiview.ChunksShape | app.py:77-78 | every row is non-empty and at most `n` long, and every row but the last is exactly `n` long |
| Multiview.ChunksCount | app.py:77 | there are `ceil(len / n)` rows, so none for no charts |
| Multiview.ChunkCharts | app.py:76-78 | the generator's loop yields exactly the rows of `Chunks`; a zero size raises `ValueError` and a negative size yields nothing |
| Multiview.Layout | app.py:70-87 | the layout fails exactly when there are more than 500 charts or the column count is zero: more than 500 charts fail with `IndexError(500)`; otherwise a zero column count fails with `ValueError`, and a negative one gives an empty layout |
| Multiview.LayoutRows | app.py:70-87 | read row by row, the layout holds every chart once and in order, paired with palette colour `i mod 10`, in `ceil(len / cols)` rows of 1 to `cols` charts, every row but the last holding exactly `cols` |
| Registry.SystemName | app.py:131 | the name is `System ` followed by the digits of the count |
| Registry.NameNumberOfName | app.py:131 | the count can be read back from the name |
| Registry.SystemNameInjective | app.py:131 | distinct counts give distinct names |
| Registry.NewSystem | app.py:127-167 | the new system has the requested type, the name of the count, keys COP, Q_r_int, E_pmp, dT_a, QQQ in that order with defaults 4.0, 15.252, 0.48, 10.0, 10.0 |
| Registry.AddFresh | app.py:172-176 | the name of the next count is not yet a key, and storing the new system under it keeps the registry invariant with the incremented count |
| Registry.RemoveKeeps | app.py:217-218 | removing any name keeps the registry invariant |
| Registry.DropTop | app.py:98-102 | without the last-numbered name, the registry is valid for one count less |
| Registry.RegisteredSize | app.py:98-102 | the registry never holds more systems than the counter has counted |
| Registry.SessionRegistry.constructor | app.py:98-102 | a session starts with no systems and a zero counter |
| Registry.SessionRegistry.CreateSystem | app.py:127-131 | the counter goes up by exactly one, the dictionary is untouched, and the system returned is named after the new count |
| Registry.SessionRegistry.AddSystem | app.py:172-176 | the counter goes up by one; the new system is stored under `System <count>`, a name absent before, every other entry is kept, and the dictionary grows by one |
| Registry.SessionRegistry.RemoveSystem | app.py:217-218 | a present name is deleted and nothing else changes; an absent name fails with `KeyError(name)` and changes nothing; the counter is never touched |

## Left out

- The exergy-balance engine (COP correction, capacities, flow exergy with `ln`) is in no source file modelled here. It is floating-point and transcendental numerics.
- `plot_waterfall` in `src/exergy_dashboard/__init__.py` is plotting only.
- The Streamlit and Altair user interface is left out: page configuration, columns, tabs, buttons, the unused gas-constant input, random chart data, chart titles, sizes and the dtype-based choice of chart kind together with its `ValueError`, and the `IndexError` of `df['system'].iloc[0]` on an empty frame (app.py:71). `Multiview.Layout` takes the charts as opaque values.
- Binding parameter values through `number_input` is left out, because it is widget state.
- The output of `print` calls is I/O and is left out.
- The empty `case_system` placeholder dictionary is left out: nothing reads it.
- No validation of a whole input vector against the catalog, and no detection of cyclic references, exists in the source. The model instead proves that references only point backwards (`Catalog.ResolvesFromPredecessors`).
- The `systems` dictionary is a Dafny `map`, so insertion order is not modelled. It would matter only for the order of the tabs and of the names offered in the system multiselect (app.py:229-230, 260).
- Defaults and steps are exact reals, where Python holds binary floating-point numbers. The range checks on the defaults do not depend on rounding.
- The catalog stores ranges as Python lists of two entries, each a number or a string, and no code in the source parses the strings. `Catalog.Load` and `Catalog.ParseRef` are the model's own reading of that text. The catalog holds the tagged bounds, and the round trip with the written text is proved.
- Catalog.Defaults: in a Python dict a repeated key keeps the later value. The model takes the first occurrence instead. Both tables are proved to have distinct identifiers, so the two agree on them.
- The catalog's copy-paste oddities are transcribed as written, not corrected.
  - `E_pmp_G` defaults to 0.29 and carries the fan-power explanation and the `$E_{f,ext}$` symbol (src/exergy_dashboard/system.py:161-168). By contrast, `E_pmp` in `app.py` defaults to 0.48 (app.py:149).
  - The third application key is `HOT WATER`, with a space (src/exergy_dashboard/system.py:188).
  - Other copy-paste labels (`Q_{r,int,A}` on `Q_r_int_G`, the name `COOLING_ASGP`) are transcribed as written.
- The default arguments `type_='ASHP'` of `create_system` (app.py:127) and `cols=2` of `create_dynamic_multiview` (app.py:8) are not modelled. Every call passes the argument explicitly (app.py:174, 189, 298), so the defaults are never used.
