# Storage tooling data refresh, modelled in Dafny

This project models the database side of `data_management.py`, the
refresh module of a storage-tooling service. The module fills a SQL Server
database (`storagetooling`) from three sources:

- a dump of customers;
- a list of storage stacks with their web pools and webs;
- the switch ports reported by a SAN management service (SanNav).

It keeps an in-memory cache of the tables it reads (`storagetooling_tables_cache`).

What the model covers:

- **The database** is a value `StoreModel.Db`:
  - its tables, as lists of rows (`map<string, string>`);
  - the next identity value;
  - the set of tables the server refuses;
  - a log of executed, rejected and committed statements.

  The connection is the class `StoreModel.Store`, with the methods `Execute` and `Commit`.
  - A statement is refused when its table is in the refused set. It is also refused when a literal holds a lone quote, or when an INSERT or UPDATE has no column, or a row width differs from the column count.
  - The module only catches `ResourceWarning`, so a refused statement is an exception that ends the pass. Every operation therefore returns `ok` and stops at the first failure.
  - The store decodes SQL literals (a doubled quote is read back as one quote). It fills the identity column `ID` with the next identity, written in decimal.
- **The cache** is the class `Cache.TableCache`, holding a map from table name to the rows last read.
  - `Cache.World` pairs the database and the cache.
  - Every refresh operation is a method whose `ensures` ties the new world to a specification function of the old world: `Step(WorldOf(store, cache), ok) == Spec(old(WorldOf(store, cache)), ...)`.
  - Lemmas then state what each specification function promises.
- **Records** (Python dictionaries) are ordered lists of `(key, value)` pairs (`Records.Record`). A failed step is the error it would raise (`Records.Failure`): a `KeyError` for a missing key, or an `IndexError` for a name the cached table lacks or an empty cached table.
- **The writers:**
  - `insert_data_to_table` (single-row INSERT with quote doubling);
  - `insert_data_to_table_batch` (blocks of `VALUES` rows, flushed every `b` rows and at the end, with no quote doubling);
  - `update_data_table`;
  - `__clear_table` (TRUNCATE);
  - `__read_sql_tables_to_cache` (SELECT and replace the cached list).
- **The formatters:**
  - `__format_customer_insert_data`;
  - `__format_sannav_insert_data`: entity type classification, device name choice and truncation, `remoteNodeWwn` default, ID look-ups in the cache, and the `activezones` edges.
- **The refreshes:**
  - `update_customer_data`;
  - `update_stack_data`: stack insert or update, web pools resolved or inserted, webs inserted when absent;
  - `update_sannav_data`: defaults filled in place in the port array, the ID tables filled from the ports' names, ports formatted, edges and entities batch-inserted.

  Python's `set` iteration order is unspecified. The methods return it as a ghost `order`, and the specification functions take that order as a parameter.

## Model

| member | source | states |
|---|---|---|
| `SqlText.UnescapeEscape` | data_management.py:691-694 | Reading back a doubled-quote literal gives the original value, for every string. |
| `SqlText.EscapeUnescape` | data_management.py:691-694 | Doubling the quotes of a decoded well-formed literal gives that literal back, so escaping is a bijection onto well-formed literals. |
| `SqlText.EscapeWellQuoted` | data_management.py:691-694 | An escaped value never holds a lone quote, so the store accepts it as a literal. |
| `SqlText.QuoteFreeUnchanged` | data_management.py:191-196 | A value without quotes is left as it is by escaping, and read back unchanged. |
| `SqlText.EscapeLength` | data_management.py:691-692 | Escaping lengthens a value by exactly its number of quotes. |
| `SqlText.JoinSplit` | data_management.py:1009 | Splitting the webs list on `,` and joining the parts gives the list back, and no part holds a comma. |
| `SqlText.TerminatedIsJoinPlusSep` | data_management.py:771-772 | Appending each row with its `,\r\n` terminator is the comma join of the rows followed by one terminator. |
| `Blocks.ChunkCount` | data_management.py:773-797 | A list of `n` rows in blocks of `b` makes `ceil(n / b)` blocks. |
| `Blocks.ChunkSizes` | data_management.py:776-797 | Every block but the last holds exactly `b` rows; the last holds `n mod b`, or `b` when `b` divides `n`. |
| `Blocks.ChunkFlatten` | data_management.py:759-797 | The blocks, in order, are the rows in their original order. |
| `Writer.InsertOneShape` | data_management.py:684-700 | The single-row INSERT names every record column except `datecreated` and `ID`, in record order, one escaped value per column. The store accepts it exactly when the table is not refused and some column is left. |
| `Writer.KeptAll` | data_management.py:687-688 | A record with neither `datecreated` nor `ID` keeps every column. |
| `Writer.DecodedEscaped` | data_management.py:687-700 | The row the store builds from the escaped values holds each record column's original value. |
| `Writer.WrittenRowHolds` | data_management.py:659-708 | The inserted row holds, in every column but `ID`, the record's value for that column. |
| `Writer.InsertOneEffect` | data_management.py:659-708 | On success the insert appends exactly the record's row under the next identity and logs the INSERT and a commit. On refusal it logs the refusal and changes no table. Success holds exactly when the table is not refused. |
| `Writer.InsertDataToTable` | data_management.py:659-708 | The method's store change is the single-row insert specification. The record it leaves behind has every non-skipped value escaped in place. |
| `Writer.UpdateEffect` | data_management.py:843-878 | The UPDATE succeeds exactly when the table is not refused, it sets some column, and every literal is well formed. It then rewrites the matching rows and logs the statement and a commit; otherwise no table changes. |
| `Writer.UpdateDataTable` | data_management.py:843-878 | The method's store change is the UPDATE specification. |
| `Writer.ClearSpec` | data_management.py:60-90 | A TRUNCATE succeeds exactly when the table is not refused, and then leaves the table empty, every other table as it was, and logs a TRUNCATE and a commit. The identity counter is not changed. A refused TRUNCATE changes no table. |
| `Writer.ClearTable` | data_management.py:60-90 | The method returns `True`/`False` and changes the store as the TRUNCATE specification says. |
| `BatchWriter.ColumnsOf` | data_management.py:740-746 | The batch columns are the first record's keys without `datecreated` and `ID`, in order. |
| `BatchWriter.RowOf` | data_management.py:759-772 | A row is built exactly when the entry is a record holding every batch column. Its values are then the record's values for those columns in column order, not escaped. |
| `BatchWriter.BlockText` | data_management.py:755-780 | The accumulated block text, with its last `,\r\n` cut off, is exactly the SQL of one multi-row INSERT of the pending rows. |
| `BatchWriter.BlockStepAccepted` | data_management.py:776-783 | A block whose rows are well-formed and match the column count is accepted. It appends its rows under consecutive identities and logs the block and a commit. |
| `BatchWriter.FlushAccepted` | data_management.py:759-797 | When every block is acceptable, the flush of all blocks succeeds. It logs one INSERT and one commit per block and advances the identity by the number of rows. |
| `BatchWriter.FlushRows` | data_management.py:759-797 | When every block is acceptable, the table gains exactly the flattened rows in order, with consecutive identities. |
| `BatchWriter.BatchFromChunks` | data_management.py:759-797 | Flushing whenever the pending count reaches a multiple of `b`, and once at the end, is the same as flushing `ceil(n / b)` consecutive blocks of `b` rows. |
| `BatchWriter.BatchAccepted` | data_management.py:710-797 | A batch of records that all carry the columns, with acceptable values, succeeds. It logs exactly the block INSERTs and commits, and appends every row in order. |
| `BatchWriter.BatchFails` | data_management.py:759-772 | When entry `f` lacks a column or is an exception, the blocks completed before `f` stay written. The pending rows are lost and the batch fails. |
| `BatchWriter.InsertDataToTableBatch` | data_management.py:710-800 | The loop's store change is the batch specification: an empty list, a failed first entry or a zero block size fails before any statement. |
| `Cache.ReloadSyncs` | data_management.py:510-549 | A reload changes no table of the store and logs one SELECT. On success the cached table equals the store's and every other cached table is unchanged; on failure the cache is unchanged. |
| `Cache.ReloadTwice` | data_management.py:510-549 | Reloading a table twice in a row leaves the same cache as reloading it once. |
| `Cache.TableCache.ReadTable` | data_management.py:510-549 | The method's change to store and cache is the reload specification. |
| `Cache.InsertReloaded` | data_management.py:931-935 | An insert followed by a reload succeeds exactly when the table is not refused. It then appends the record's row, brings the cached table in sync and leaves the other tables and cached tables as they were. On refusal neither tables nor cache change. |
| `Formatters.CustomerFormatFails` | data_management.py:186-203 | Customer formatting succeeds exactly when `ID`, `NAME`, `STACKNUMBER` and `L` are all present. Otherwise it raises the error for the first missing key in the order the code reads them. |
| `Formatters.CustomerFormatted` | data_management.py:186-205 | The formatted customer has the columns contextid, customer, status and stackid in that order. It carries `ID` and `STACKNUMBER` unchanged, status `1` exactly when `L` is `Y` and `0` otherwise, and the name with quotes doubled (decoding back to the name). A quote-free name is unchanged. |
| `Formatters.EntityTypeNamed` | data_management.py:243-249 | `Initiator` gives `device`, `SWITCH` gives `chassis`, a type containing `Target` gives `storage`, and anything else (or empty) sets no entity type. |
| `Formatters.EntityTypeClassified` | data_management.py:242-249 | Classification fails exactly when `connectedDeviceType` is missing. Otherwise it changes no key but `entitytype`, sets it when the type is recognised, and leaves the record unchanged when it is not. |
| `Formatters.RemoteDeviceTestAlwaysTrue` | data_management.py:254 | The test `d != '' or d != 'localhost'` holds for every string. |
| `Formatters.DeviceNameChosen` | data_management.py:251-262 | With both `remoteDevice` and `remotePort` present, the device is `remoteDevice`. With only one of them, that value when it is non-empty, else `none`; with neither, `none`. |
| `Formatters.DeviceNameTruncated` | data_management.py:264-266 | A device name over 50 characters is cut to its first 50; a shorter one is kept; the result is a prefix of at most 50 characters. |
| `Formatters.PrepareFails` | data_management.py:243-271 | The formatter's first steps fail exactly when `connectedDeviceType` or `remoteNodeWwn` is missing. |
| `Formatters.PortPrepared` | data_management.py:242-271 | After the first steps every key but `entitytype` and `remoteNodeWwn` is unchanged, and an empty `remoteNodeWwn` becomes `none`. The device name is the chosen name truncated to 50 characters. |
| `Formatters.IdPairOrder` | data_management.py:285-306 | One ID look-up fails in the source's order. An empty cached table raises IndexError before the port key is read, because the key is read inside the filter. Then comes a missing key (KeyError), then a name no cached row has (IndexError). Otherwise the result is the first matching row's identity under the `<label>id` column. |
| `Formatters.EntityRowFails` | data_management.py:273-306 | The entity row is built exactly when the port has every base key and every ID look-up finds a cached row. |
| `Formatters.IdColumnsResolved` | data_management.py:285-306 | The ID columns of the entity row are `entitytypeid`, `fabricNameid`, `healthid`, `statusid`, `switchNameid` and `zoneid`, in that order. |
| `Formatters.EntityRowColumns` | data_management.py:273-306 | The entity row's columns are the eight base columns followed by the six ID columns. |
| `Formatters.EntityRowValues` | data_management.py:273-283 | The entity row holds the run id, then the port's values for `id`, `wwn`, `portNumber`, `slotNumber`, `remoteNodeWwn` and `ipAddress`, then the device name. |
| `Formatters.EntityRowIds` | data_management.py:285-306 | Each ID column holds the identity of the first cached row whose name is the port's value for that table. |
| `Formatters.SannavFormatted` | data_management.py:207-334 | Port formatting succeeds exactly when the first steps, every ID look-up and every active zone's look-up succeed. It then returns the entity row, the updated port and one edge per active zone in order (run id, entity id, the zone's first cached identity). |
| `Formatters.ResolveIds` | data_management.py:285-306 | The loop over the ID tables returns the collected look-ups, or the first failing one. |
| `Formatters.BuildZoneEdges` | data_management.py:308-325 | The loop over the active zones returns the collected edges, or the first failing look-up. |
| `Formatters.FormatSannavInsertData` | data_management.py:207-334 | The method computes the port formatting specification. |
| `Customers.UpdateCustomerData` | data_management.py:802-841 | The method's change to store and cache is the customer refresh specification. |
| `Customers.CustomerRow` | data_management.py:741-772 | A formatted customer's batch row is its four values in column order. |
| `Customers.CustomerRows` | data_management.py:741-772 | The batch columns of formatted customers are contextid, customer, status and stackid. No row fails, and row `i` is customer `i`'s values. |
| `Customers.CustomerValuesAccepted` | data_management.py:186-203 | A formatted customer whose id, stack number and status are quote-free gives four well-formed literals. |
| `Customers.CustomerRowDecoded` | data_management.py:186-205 | The stored row of a formatted customer reads back as the customer's `ID`, `NAME` (unescaped), status and `STACKNUMBER`, under the identity assigned. |
| `Customers.CustomersClearFailed` | data_management.py:819-824 | When the TRUNCATE is refused, the pass fails with nothing inserted and the cache unchanged. |
| `Customers.CustomersRefreshed` | data_management.py:802-841 | For a clean dump, the pass truncates first, then inserts every customer in dump order in blocks of 250, then reloads. The table then holds exactly those rows and the cache matches it. |
| `Customers.CustomerRefreshedRow` | data_management.py:802-841 | Row `i` of the refreshed table holds customer `i`'s name, id, status and stack number. |
| `Customers.CustomersFormatFailed` | data_management.py:819-833 | When customer `f` cannot be formatted, the pass fails after the TRUNCATE and the cache is not reloaded. The store is the cleared store after flushing the full blocks of 250 rows before `f`. With fewer than 250 customers before `f`, the table is left empty and only the TRUNCATE and its commit are logged. |
| `Customers.CustomersPartlyWritten` | data_management.py:759-797 | When the customers before `f` have quote-free ids, every full block before `f` is written. The log holds the TRUNCATE, its commit and one INSERT and commit per full block. The table holds exactly the rows of those blocks, in dump order. |
| `Stacks.DifferingExact` | data_management.py:939-954 | The columns to update are exactly the locations whose cached value differs, and none means no update. |
| `Stacks.StackSeen` | data_management.py:938-964 | For a cached stack, the UPDATE sets exactly the differing locations and leaves the cache alone. With nothing differing it changes nothing; otherwise it goes through exactly when its table and literals are acceptable. |
| `Stacks.StackUnseen` | data_management.py:931-937 | For an uncached stack, the stack is inserted and the cache reloaded. The new row holds the stack's name and locations. |
| `Stacks.StackIdempotent` | data_management.py:925-964 | Running the stack step again after the reload changes nothing: the stored stack already matches (quote-free values). |
| `Stacks.WebpoolResolved` | data_management.py:984-1006 | A cached web pool gives its identity with no statement. Otherwise the pool is inserted and the cache reloaded, and the identity returned is the first reloaded row of that name. |
| `Stacks.WebsFail` | data_management.py:1013-1032 | Inserting the webs fails exactly when some web is absent from the cache and the `webs` table is refused. |
| `Stacks.WebsInserted` | data_management.py:1013-1032 | The log gains one INSERT and commit per list entry absent from the cache, in list order, and nothing else. A web listed twice is inserted twice, because `webs` is not reloaded between webs. |
| `Stacks.WebStepEffect` | data_management.py:1021-1032 | A cached web is skipped; an absent one is inserted with its web pool identity. |
| `Stacks.UpdateStackData` | data_management.py:880-1054 | The method's change to store and cache is the stacks refresh specification. |
| `SanNav.DefaultsFilled` | data_management.py:1097-1106 | `zoneAlias`, `entitytype` and `remoteNodeWwn` get `none` when missing, `activeZones` gets `['none']`, and nothing else changes. |
| `SanNav.FillSannavDefaults` | data_management.py:1097-1106 | The loop fills the defaults of every port of the array in place. |
| `SanNav.ZoneListsHold` | data_management.py:1136-1138 | The module's zone lists keep their earlier entries and gain every port's active zone list. |
| `SanNav.AbsentNamesExact` | data_management.py:1119-1134 | The names inserted are exactly the names not in the cached table, each once. |
| `SanNav.NamesFail` | data_management.py:1119-1134 | Filling an ID table fails exactly when some name is absent and the table is refused. |
| `SanNav.NamesLogged` | data_management.py:1119-1134 | The log gains one INSERT and commit per absent name, in iteration order. |
| `SanNav.NamesRowsAdded` | data_management.py:1119-1134 | The table gains exactly one row per absent name, with consecutive identities. |
| `SanNav.FillFound` | data_management.py:1119-1156 | After the names and the reload, every name of the set is found in the cached table and every name found before still is. |
| `SanNav.InsertNames` | data_management.py:1123-1132 | The method's store change is the name-insert specification for some iteration order of the set. |
| `SanNav.FillIdTables` | data_management.py:1110-1156 | The loop over the ID tables changes store and cache as the ID-phase specification says, for one iteration order per table. |
| `SanNav.FillKeeps` | data_management.py:1119-1156 | Filling one of a set of tables, each cached as a prefix of its store table, keeps that true for the whole set. It keeps earlier names found and finds every name of the order. Tables outside the set may be cached stale. |
| `SanNav.SourcesFound` | data_management.py:1110-1156 | After the whole ID phase, every name of every source is found in its cached table. This needs only the tables the sources fill to be cached as prefixes of the store. Any other table may be stale, as a stacks UPDATE or an empty customer dump earlier in the pass leaves it. |
| `SanNav.SourcesNamed` | data_management.py:1110-1121 | A successful ID phase means every port carried every key the phase reads. |
| `SanNav.IdPhaseResolves` | data_management.py:1110-1156 | After a successful ID phase, every zone of every port and its fabric name, health, status, switch name and zone alias are found in their tables. This needs only `zone`, `fabric`, `health`, `status` and `switch` to be cached as prefixes of the store. The stacks and customers refreshes earlier in the pass write only `stacks`, `webpools`, `webs` and `customers`. |
| `SanNav.FormatPorts` | data_management.py:1168-1171 | The formatting loop returns every port formatted, or the first failure. |
| `SanNav.CollectEdges` | data_management.py:1177-1186 | The nested loop flattens the ports' edge lists in port order. |
| `SanNav.WriteFormatted` | data_management.py:1194-1208 | Edges are batch-inserted and `activezones` reloaded when there are any. Entities are then batch-inserted when there are any. |
| `SanNav.AppendZoneLists` | data_management.py:1136-1138 | The loop appends each port's zone list to the module's lists. |
| `SanNav.UpdateSannavData` | data_management.py:1056-1226 | The array ends with the defaults filled and the zone lists returned are the module's. Store and cache change as the refresh specification says. |

## Left out

- The database connection, driver and server: `__connect_ms_sql` is not modelled. The store is a value with a set of tables it refuses, standing for any server-side failure.
- The REST and CSV fetches (`__get_customer_data`, `__get_server_data`, `get_all_storage_data`, `update_session_key`): their results are parameters.
- `asyncio.gather` fan-out is modelled as a sequential map; exceptions gathered as results are `Result` values.
- `__get_runid`: the run id is a parameter.
- `__update_source_refresh_timestamp`, `__format_current_datetime`, date and hierarchy-id helpers: clocks and timestamp writes are left out.
- Timing, `print` output, `sys.exit` text and the `debug_log` records are left out.
- The `activezones` reload adds a `WHERE RunId = ...` suffix, which the model does not filter on. The suffix is a plain string whose braces are never formatted, so the text is sent as written.
- The module-level `activezone_object_id_table_dict_list` is the parameter `prior`, and the method returns the lists after the pass.
- `__format_sannav_insert_data` also writes `entitytype` and `remoteNodeWwn` into the port dictionary it is given. The model returns the updated port inside the result instead of writing it back into the caller's list.
- `str(...)` of numeric port fields: every field value is a string in the model.
- Identities: the store has one identity counter shared by all tables, and TRUNCATE does not reset it. SQL Server keeps an identity per table and `TRUNCATE TABLE` reseeds it. The identities stated by `Customers.CustomersRefreshed`, `Customers.CustomersPartlyWritten`, `SanNav.NamesRowsAdded` and the other insert lemmas are the model's numbering: consecutive and in insertion order, but not the server's values.
- Stack records: `Stacks.StackSource` has the stack, its three locations and its web pool names and lists as mandatory strings. So the KeyError raised for a record missing one of them (lines 914-919, 975-987, 1009) is not modelled; `except ResourceWarning` does not catch it. The model also does not capture that line 928 compares the stored `Stack` with the raw `record['stack']` while line 916 stores `str(record['stack'])`. For a non-string stack value the two differ, and the stack would be inserted again on every pass.
- SQL `NULL` is modelled as an absent column, so a NULL never equals a value in a comparison.
- `WHERE column = 'value'` (`StoreModel.Matches`) finds the column without regard to case but compares the value exactly. Under a case-insensitive collation, the server would also match a row whose value differs only in case.
- `Stacks.StackIdempotent`: proved only for quote-free stack names and locations, because the UPDATE does not double quotes and a quoted value is refused.
- `Formatters.DeviceNameTruncated`: the code keeps the FIRST 50 characters (`device[:-(len - 50)]`), not the last ones; the model follows the code.
- `Formatters.RemoteDeviceTestAlwaysTrue`: the code's test at line 254 is always true, so `remoteDevice` wins whenever both keys exist, even when it is empty or `localhost`; the model follows the code.
- `SanNav.IdPhaseResolves`: the refresh fills `zone` from `zoneAlias`, but the formatter looks the port key `zone` up in that table. The refresh never fills `entitytype` names. So the lemma covers the look-ups the refresh prepares, and not the formatter's `entitytype` and `zone` look-ups.
- `update_data_from_sources`, `get_storage_data_properties` and `__handle_*` are outside the refresh core and not modelled.
