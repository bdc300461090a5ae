# SmartStock in Dafny

SmartStock is an inventory and production-planning system. A FastAPI server
keeps three tables: components, relationships (a bill of materials: `amount`
units of `sub` go into one `top`) and reservations. From these it derives
stock allocations and purchase requirements. Two clients, an admin dashboard
and a mobile app, sit on top.

This project models the planning engine and the server logic around it, plus
the small computational pieces of the clients, and proves what they promise.

**Server**

- **Forecasting.** A reservation explodes the bill of materials, expanding
  only the part not covered by stock. Repeated sub-components are aggregated.
  Stock is allocated greedily: root demands by (priority, creation time),
  then child demands by creation time. A purchase requirement is created or
  merged for a shortfall on a part that cannot be manufactured.
- **Tree.** The component tree is unfolded along each path, and a component
  already on the current path is cut.
- **Stock update.** An absolute or relative update is refused when the new
  stock would be negative. A relative increase draws the sub-components down.
- **Analytics.** Cost and duration roll-ups over the tree.
- **Graph.** The projection of the tree to a node-and-edge graph.
- **Relationships and components.** The create, update and delete rules on
  the relationship and component tables, with their zero-amount "placeholder"
  edges from the tree root.
- **Manuals.** The manual-upload file-name rules.

**Clients**

- the two fuzzy-search rankers;
- the hierarchical layout of the flowchart;
- the deletion-impact preview;
- the `HH:MM` time field;
- the reservation form with its `dd/mm/yyyy` formatter;
- the relationship-amount and stock-update validators;
- the stock-status classifier;
- the mobile component form.

The database is the class `Store.Database`: components are a map, and the
other tables are sequences. Handlers that change tables are methods that
modify its fields. Quantities, costs and hours are exact `real`s. Clock
readings and generated ids are parameters.

The client functions that walk the tree as a map (`previewDeletionImpact`
and `calculateNodePositions` in `canvas.js`) are modelled on the map from a parent to its
`[child, amount]` pairs that they index, not on the nested tree the server's
`/tree` returns. `getNodeColor` appears twice, in `canvas.js` and in
`nodeUtils.js`, with the same body; it is modelled once as
`Layout.NodeColor`.

Straight-line client checks with no loop, such as `validateForm` and
`handleSubmit` in the reservation form, are modelled as functions from the
form's fields to the errors they set and the request they send. The state
setters around them are not modelled.

Where the code does something other than what its design describes, the
model follows the code:

- In `build_tree_recursive` a cycle-cut leaf is returned with amount 0, but
  the caller then overwrites every child's amount with the relationship
  amount (`server/controllers/tree.py:30`). A cut leaf therefore carries its
  edge's amount.
- A missing top component in `get_tree`, and in the relationship and
  component update handlers, raises 404 inside a `try` whose generic
  `except` reports it as 400. The detailed cost roll-up does the same with a
  404 from its helpers.
- The relationship handlers import `RelationshipRequest` and read its
  `root` field, but `server/models.py` declares no such class. The model's
  request carries `root`, as the handlers use it.
- `delete_reservation` raises 404 for a missing id inside a `try` whose
  generic `except` reports it as 500.
- `create_component` with an existing name and an empty `root` leaves its
  `try` without returning. The route declares a `Component` response model,
  which refuses the missing answer, so the client gets 500 and nothing is
  written.
- A partial `delete_component` deletes the (parent, name) edge with the
  Prisma client's `delete`, which answers nothing for a missing row rather
  than raising `RecordNotFoundError`. The handler then returns the
  component, so deleting an edge that is not there succeeds and changes
  nothing.
- `getTree` catches every failure of its request, including the error
  `handleResponse` throws for a non-ok status, and returns an empty tree.
  `previewDeletionImpact` then finds no dependents and no children and
  reports the component as safe to delete. Its own failure answer ("Could
  not analyze deletion impact") is given only when the tree value cannot be
  read.

The relationship table keeps (top, sub) unique, and the purchase-requirement
table keeps at most one pending row per component. `Store.Database.Valid`
states both, and every handler that changes the database requires and keeps
them.

## Model

| member | source | states |
|---|---|---|
| Store.Outgoing | server/controllers/tree.py:23-25 | The rows whose top component is the given name, in table order: exactly the rows with that top. |
| Store.RemovePair | server/controllers/relationships.py:166-171 | Deleting by the (top, sub) key keeps exactly the rows with another key. |
| Store.SetPairAmount | server/controllers/relationships.py:53-61 | Updating by the (top, sub) key changes only that row's amount, in place; every other row and the length stay. |
| Store.RemovePairKeepsUnique | server/controllers/relationships.py:55-60 | Deleting a key keeps (top, sub) unique, and the key is then absent. |
| Store.SetPairAmountKeepsUnique | server/controllers/relationships.py:53-61 | Changing an amount keeps (top, sub) unique. |
| Store.AppendNewPairKeepsUnique | server/controllers/relationships.py:86-92 | Inserting a row with a new key keeps (top, sub) unique. |
| Tree.UniverseShrinks | server/controllers/tree.py:16-20 | Adding an unvisited name to the path shrinks the set of names still available: the recursion measure. |
| Tree.BuildTree | server/controllers/tree.py:12-33 | `build_tree_recursive`: the returned node carries the requested name. |
| Tree.BuildTreeCutsExactlyOnPath | server/controllers/tree.py:16-33 | At every depth, a node already on its path is a childless leaf, and any other node has one child per outgoing relationship, in table order, with that relationship's sub-component and amount. Each child gets its own copy of the path, so siblings do not cut each other. |
| Tree.CutChildCarriesEdgeAmount | server/controllers/tree.py:16-30 | A cut child is a leaf, and it carries the edge amount, because the parent overwrites the 0 set on the cut node. |
| Tree.Depth | server/controllers/tree.py:12-33 | A node is deeper than each of its children. |
| Tree.MaxDepth | server/controllers/tree.py:28-31 | The deepest of a list of children bounds each child. |
| Tree.MaxDepthBound | server/controllers/tree.py:28-31 | A bound on every child bounds the deepest one. |
| Tree.BuildTreeDepth | server/controllers/tree.py:16-29 | The depth of the tree is at most the number of names not yet on the path, plus one. Every call adds a new name, so the recursion is bounded. |
| Tree.ChildDepth | server/controllers/tree.py:28-29 | The same bound for each child, one name further down. |
| Tree.GetTree | server/controllers/tree.py:35-59 | A missing top component gives 400 (the 404 raised inside the try is caught and turned into a 400). Otherwise the tree is unfolded from an empty path, with the root's amount 1. |
| Relationships.FindPair | server/controllers/relationships.py:45-50 | `find_first` by key: a row is found exactly when one with that key exists, and the row found has that key. |
| Relationships.SameKeySameRow | server/controllers/relationships.py:55-60 | Under the unique constraint, a key determines its row. |
| Relationships.GetRelationship | server/controllers/relationships.py:12-32 | The row for the key, or 404 exactly when there is none. |
| Relationships.CreateStoresAmount | server/controllers/relationships.py:44-94 | After a create, the (source, target) row exists, and every row with that key carries the requested amount. |
| Relationships.CreateExistingChangesOnlyAmount | server/controllers/relationships.py:52-63 | When the pair exists, only that row's amount changes: every row keeps its key and position. |
| Relationships.CreateNewReplacesPlaceholder | server/controllers/relationships.py:65-94 | A new pair adds exactly the new row and removes exactly the placeholder (root, target, 0). A non-zero root edge is kept. |
| Relationships.CreateKeepsUnique | server/controllers/relationships.py:44-94 | A create keeps (top, sub) unique. |
| Relationships.CreateRelationship | server/controllers/relationships.py:34-100 | Top and sub are reduced to their last '/' segment, while root is used as given. The table becomes the created-edges function of the old table. The table constraints of `Store.Database.Valid` are kept. |
| Relationships.UpdateRelationshipOutcome | server/controllers/relationships.py:103-139 | An update fails with 400 exactly when the row is missing (the 404 is re-raised as 400), and then nothing changes. On success a lookup finds the returned row, and no other row changes. |
| Relationships.UpdateRelationship | server/controllers/relationships.py:103-139 | The answer and the new table are those of the update function. The table constraints of `Store.Database.Valid` are kept. |
| Relationships.DeleteMissing | server/controllers/relationships.py:160-187 | Deleting a missing edge answers 400 and changes nothing. |
| Relationships.DeleteMovesToRoot | server/controllers/relationships.py:166-179 | A successful delete removes (top, sub), adds the placeholder (root, sub, 0) and keeps every other row. Unless root is top, no (top, sub) edge remains. |
| Relationships.DeleteFromRootKeepsEdge | server/controllers/relationships.py:166-179 | When root equals top, the delete succeeds and the edge stays, with amount 0. |
| Relationships.PlainTopIsRoot | server/controllers/relationships.py:149-151 | A top given without '/' is its own first and last segment, so it is its own root. |
| Relationships.DeleteCollisionStillRemoves | server/controllers/relationships.py:166-187 | If the placeholder insert collides with an existing (root, sub) row, the answer is 400, but the (top, sub) edge is already gone. |
| Relationships.DeleteKeepsUnique | server/controllers/relationships.py:141-187 | A delete keeps (top, sub) unique, whatever its outcome. |
| Relationships.DeleteRelationship | server/controllers/relationships.py:141-187 | Root is the first '/' segment and top and sub are the last. The answer and the new table are those of the delete function. The table constraints of `Store.Database.Valid` are kept. |
| Relationships.DeleteEdges | server/controllers/relationships.py:149-181 | The steps on the table (reduce the names, find the row, delete it, insert the placeholder) give exactly the delete function's answer and table, and keep (top, sub) unique. |
| Components.NewRecord | server/controllers/components.py:93-98 | A new record is stamped with the clock and has no delivery time. |
| Components.CreateExistingKeepsRecord | server/controllers/components.py:71-90 | For an existing component the catalogue is unchanged, and the answer is the stored record. The only possible edge change is the placeholder, which is added even from the component to itself because this branch has no root ≠ name guard. An empty root answers 500 and changes nothing. |
| Components.CreateNewStoresRecord | server/controllers/components.py:92-115 | A new component is stored, with the clock as its scan time, and no other record changes. It gets a placeholder edge exactly when the root is non-empty and differs from its name. |
| Components.CreateFailureRollsBack | server/controllers/components.py:100-121 | The create fails exactly when a new component's placeholder collides (400) or an existing name comes without a root (500). Either way both tables are as before. |
| Components.CreateKeepsUnique | server/controllers/components.py:59-121 | A create keeps (top, sub) unique. |
| Components.CreateComponent | server/controllers/components.py:59-121 | The method's answer and tables are those of the create function; the record is written first and removed again on failure. The table constraints of `Store.Database.Valid` are kept. |
| Components.MergedIdempotent | server/controllers/components.py:140-150 | Applying the same update twice at the same time is the same as applying it once. |
| Components.MergedNoChanges | server/controllers/components.py:140-145 | An empty update only renews lastScanned, and no update writes the delivery time. |
| Components.UpdateTouchesOnlyNamed | server/controllers/components.py:123-157 | An update fails with 400 exactly when the name is missing (the 404 is swallowed), and then nothing changes. On success only the named record changes, it is the answer, and it is stamped with the clock. |
| Components.UpdateComponent | server/controllers/components.py:123-157 | The answer and the catalogue are those of the update function. The table constraints of `Store.Database.Valid` are kept. |
| Components.Detached | server/controllers/components.py:179-186 | The edge table keeps exactly the edges that do not mention the name. |
| Components.FullDeleteDetaches | server/controllers/components.py:177-191 | A full delete removes the record and every edge that mentions it, and nothing else. Edges that resolved before still resolve. |
| Components.PartialDeleteUnlinks | server/controllers/components.py:204-220 | A partial delete answers the stored record, keeps the catalogue and removes only the (parent, name) edge. Without that edge it still succeeds and changes nothing. |
| Components.DeleteKeepsUnique | server/controllers/components.py:159-220 | A delete keeps (top, sub) unique. |
| Components.DeleteComponent | server/controllers/components.py:159-220 | The answer and tables are those of the delete function. A missing component gives 404. The table constraints of `Store.Database.Valid` are kept. |
| Manuals.AllowedIffExtensionAllowed | server/controllers/manuals.py:20-26 | A name passes `allowed_file` exactly when `get_file_extension` gives an allowed extension: the two functions agree. |
| Manuals.ExtensionShape | server/controllers/manuals.py:25-26 | The extension holds no '.' and is already lower case. |
| Manuals.LastSegmentUnique | server/controllers/manuals.py:22-26 | `rsplit('.', 1)[1]` is the unique '.'-free suffix that follows a '.' or is the whole string. |
| Manuals.DotSurvivesLower | server/controllers/manuals.py:22-26 | Lower-casing neither creates nor removes a '.'. |
| Manuals.ToLowerIdempotent | server/controllers/manuals.py:23 | Lower-casing twice is the same as lower-casing once. |
| Manuals.LastSegmentToLower | server/controllers/manuals.py:23 | Lower-casing commutes with taking the text after the last '.'. |
| Manuals.CaseInsensitive | server/controllers/manuals.py:20-26 | Both checks give the same answer for a name and for its lower-cased form. |
| Manuals.UploadManual | server/controllers/manuals.py:28-80 | A record is produced exactly when the component exists and the file name is present and allowed. A missing component gives 404. The stored file type is an allowed extension, and the original file name is kept. |
| Manuals.StoredNameRoundTrip | server/controllers/manuals.py:60-77 | The URL is `/uploads/manuals/` followed by `<component>_<id>.<ext>`. That saved name is itself allowed, and its extension is the upload's. |
| StockUpdate.Consume | server/controllers/stockupdate.py:68-96 | The sub-component decrements, applied in order, keep the catalogue's names. |
| StockUpdate.ConsumeOne | server/controllers/stockupdate.py:70-96 | One edge changes only its sub-component, which loses edge amount × amount, floored at 0. A missing sub-component is skipped. |
| StockUpdate.Decremented | server/controllers/stockupdate.py:80-94 | The decremented stock is never negative, is at least the old stock minus what was used, and never rises for a non-negative use. Only the amount changes. |
| StockUpdate.ConsumeUntouched | server/controllers/stockupdate.py:68-96 | A component that no edge names keeps its record. |
| StockUpdate.ConsumeOnce | server/controllers/stockupdate.py:68-96 | A sub-component named by exactly one edge ends at max(0, stock − edge amount × amount). |
| StockUpdate.OutgoingSubsDistinct | server/controllers/stockupdate.py:63-65 | Under the unique-pair constraint, a component's outgoing edges name distinct sub-components. |
| StockUpdate.UpdatedNamed | server/controllers/stockupdate.py:35-58 | For a component with no relationship to itself: after a successful update the named component has the new amount (`amount` if absolute, else current + amount), the scanner and the clock. The catalogue keeps its names. |
| StockUpdate.UpdatedUntouched | server/controllers/stockupdate.py:61 | Absolute updates and relative decreases touch no other component, and neither does a relative increase for a component that is not a direct sub-component. |
| StockUpdate.UpdatedConsumes | server/controllers/stockupdate.py:61-96 | On a relative increase, each existing direct sub-component ends at max(0, stock − edge amount × amount). |
| StockUpdate.AcceptedIsNonNegative | server/controllers/stockupdate.py:35-48 | An accepted update names an existing component and leaves it a non-negative stock. |
| StockUpdate.ConsumeSubcomponents | server/controllers/stockupdate.py:68-96 | The sub-component loop computes exactly the ordered decrements. |
| StockUpdate.UpdateComponentStock | server/controllers/stockupdate.py:12-105 | The update fails exactly on a blank name (400), a missing component (404, re-raised unchanged) or a negative new stock (400), and then writes nothing. On success the catalogue becomes the updated-catalogue function, the answer is the record written before the cascade, and the other tables stay. The table constraints of `Store.Database.Valid` are kept. |
| Analytics.KnownIffNamesStored | server/controllers/analytics.py:18-29 | A traversal meets no unknown component (the 404 of `_get_component_cost`) exactly when every name in the tree is a stored component. |
| Analytics.TotalConcat | server/controllers/analytics.py:45-48 | The occurrence sum of two lists is the sum of their sums. |
| Analytics.TotalScale | server/controllers/analytics.py:48 | Scaling every multiplier by k scales the occurrence sum by k. |
| Analytics.RollUpIsOccurrenceSum | server/controllers/analytics.py:43-54 | The post-order roll-up equals the sum, over every occurrence of a component in the tree, of the product of edge amounts on its path times its own value. |
| Analytics.ZeroEdgesAddNothing | server/controllers/analytics.py:48 | Children whose edge amount is 0 add nothing to the weighted sum of the children. |
| Analytics.NodeIgnoresZeroEdges | server/controllers/analytics.py:43-54 | Dropping a node's zero-amount children leaves its roll-up unchanged, unless that turns it into a leaf. |
| Analytics.TotalCostIsOccurrenceSum | server/controllers/analytics.py:31-65 | The total cost fails with 400 for an unknown top component and 404 for any unknown node. Otherwise it is `amount` times the sum over occurrences of edge-amount product × (cost + development time × hourly rate). |
| Analytics.ManufacturingIsInnerOccurrenceSum | server/controllers/analytics.py:104-134 | Manufacturing time is the edge-weighted sum of the development times of the inner occurrences; a leaf contributes none. |
| Analytics.DeliveryIsLargestLeaf | server/controllers/analytics.py:107-123 | The delivery time bounds every leaf's delivery time, is at least 0 at an inner node, and is attained by a leaf unless it is 0. |
| Analytics.MaxDeliveryIsLargestLeaf | server/controllers/analytics.py:112-123 | Over a list of children, the running maximum from 0 bounds every leaf below them and is attained by one unless it is 0. |
| Analytics.TotalDurationIsOccurrenceSum | server/controllers/analytics.py:94-147 | The duration endpoint fails exactly as the cost endpoint does. The manufacturing time is scaled by `amount` and the delivery time is not; the delivery time bounds every leaf's. |
| Analytics.Accumulate | server/controllers/analytics.py:167-186 | The detailed traversal succeeds exactly when every node is known. It returns the weighted cost, and adds each occurrence's material cost, labor cost and development time once to the running totals. |
| Analytics.KnownChildrenPrefix | server/controllers/analytics.py:172-173 | One child that fails makes the whole traversal fail. |
| Analytics.DetailedCost | server/controllers/analytics.py:151-203 | Fails exactly when the total-cost computation would, always with 400. Otherwise it reports the unscaled total cost, the three unweighted totals, the hourly rate and the component name. |
| Analytics.BreakdownIsUnweightedSum | server/controllers/analytics.py:182-184 | The breakdown totals are plain sums over occurrences: every multiplier is 1, whatever the edge amounts. |
| Analytics.UnscaledMultipliers | server/controllers/analytics.py:182-184 | Without edge weighting every occurrence has multiplier 1. |
| BomExplosion.Record | server/controllers/forecasting.py:284-296 | Merging a non-root need keeps the dictionary well formed: each key is listed once in insertion order. The name always has an entry afterwards. |
| BomExplosion.SetRoot | server/controllers/forecasting.py:307-313 | The root's entry is the requested quantity at the given level, replacing any earlier entry. |
| BomExplosion.FlattenRequirements | server/controllers/forecasting.py:259-318 | The recursion, with its dictionary threaded through the child loop, computes exactly the value-level flattening. |
| BomExplosion.AggregateAppend | server/controllers/forecasting.py:317-318 | Merging two lists of visits one after the other is merging their concatenation. |
| BomExplosion.FlattenIsAggregate | server/controllers/forecasting.py:271-318 | Flattening below a non-root node merges exactly the reference visits in pre-order. A node's children are visited, with its shortfall as their quantity, only when stock leaves a shortfall. |
| BomExplosion.ChildrenAreAggregate | server/controllers/forecasting.py:317-318 | The child loop merges the children's visits in order. |
| BomExplosion.RootFlattenIsAggregate | server/controllers/forecasting.py:307-318 | The root call sets the root entry and then merges its children's visits, with the full quantity. |
| BomExplosion.AggregateEntry | server/controllers/forecasting.py:284-296 | After merging, a name has an entry exactly when it had one or is visited. Its total is the old total plus the sum of its needs. Its level is the smallest of its old level and its visit levels, and is attained. |
| BomExplosion.AggregateKeepsWellFormed | server/controllers/forecasting.py:284-296 | Merging any list of visits keeps the dictionary well formed. |
| BomExplosion.ChildRows | server/controllers/forecasting.py:237-249 | Rows follow the key order, skip the root, and each one is the pending priority-0 "system" row of its key's total and level. |
| BomExplosion.ChildRowsCover | server/controllers/forecasting.py:237-238 | Every key other than the root gets a row. |
| BomExplosion.ChildRowsDistinct | server/controllers/forecasting.py:237-238 | Distinct keys give rows for distinct components. |
| BomExplosion.RootRequirements | server/controllers/forecasting.py:233-234 | The dictionary built by the root call is well formed. |
| BomExplosion.NoExplosionNoRows | server/controllers/forecasting.py:196-230 | No row is written for an unknown component, for a purchased `'component'`, when stock covers the request, or when there are no sub-components. |
| BomExplosion.RootRequirementsEntry | server/controllers/forecasting.py:233-234 | In the root call's dictionary a name other than the root has an entry exactly when it is visited, with the summed need and the shallowest visit level. |
| BomExplosion.ExplodeRowsShape | server/controllers/forecasting.py:237-249 | Every row is a pending, non-root, priority-0 "system" row of the batch with no date, for a component other than the requested one, and no component gets two rows. |
| BomExplosion.ExplodedRowQuantity | server/controllers/forecasting.py:219-249 | A row's quantity is its component's summed need over the visits made with the shortfall `quantity - stock`, and its level the shallowest visit. |
| BomExplosion.ExplodedComponentHasRow | server/controllers/forecasting.py:233-249 | A component other than the requested one gets a row exactly when the flattening visits it. |
| BomExplosion.WriteChildRows | server/controllers/forecasting.py:237-249 | The write loop produces exactly the specified rows. |
| BomExplosion.ExplodeBom | server/controllers/forecasting.py:182-257 | The reservation table gains exactly the explosion rows, and no other table changes. The table constraints of `Store.Database.Valid` are kept. |
| StockAllocation.RootBeforeIsPreorder | server/controllers/forecasting.py:383 | The (priority, createdAt) order is a total preorder, so the stable sort is well defined. |
| StockAllocation.CreatedBeforeIsPreorder | server/controllers/forecasting.py:384 | The createdAt order is a total preorder. |
| StockAllocation.AllocationOrderServesAll | server/controllers/forecasting.py:369-385 | The serving order is a permutation of the demands. It puts every root demand before every child demand, roots in (priority, createdAt) order and children in createdAt order. |
| StockAllocation.AllocationOrderIsStable | server/controllers/forecasting.py:370-385 | The sort is stable: root demands with equal (priority, createdAt) are served in their input order, and so are child demands with equal createdAt. |
| StockAllocation.RootsStable | server/controllers/forecasting.py:370-385 | The root demands with one (priority, createdAt) appear in the serving order exactly as in the input. |
| StockAllocation.ChildrenStable | server/controllers/forecasting.py:371-385 | The child demands with one createdAt appear in the serving order exactly as in the input. |
| Seqs.SortStable | server/controllers/forecasting.py:382-385 | Python's `sorted` is stable: elements that all tie under the order keep their input order after sorting. |
| Seqs.TakeOfSort | apps/admin-dashboard/src/services/service.js:452-454 | `sort` then `slice(0, n)`: min(n, length) of the input's elements, sorted, all of them when there are at most n, and no element left out comes strictly before a kept one. |
| Seqs.InsertStable | server/controllers/forecasting.py:382-385 | Inserting one element into a sorted list keeps tied elements in the order of the element followed by the list. |
| StockAllocation.PartitionMultiset | server/controllers/forecasting.py:370-371 | Splitting the demands by `isRoot` loses and adds nothing. |
| StockAllocation.Greedy | server/controllers/forecasting.py:390-400 | There is one allocation row per demand. |
| StockAllocation.GreedyConserves | server/controllers/forecasting.py:390-403 | Allocated plus remaining stock is the initial stock, and allocated plus shortfall is the total demand. |
| StockAllocation.RemainingNonNegative | server/controllers/forecasting.py:391-402 | After at least one demand, or from non-negative stock, the stock left is never negative. |
| StockAllocation.GreedyWithinStock | server/controllers/forecasting.py:391-402 | From non-negative stock, no more is allocated than there was. |
| StockAllocation.GreedyAt | server/controllers/forecasting.py:390-402 | Row k serves demand k from what the earlier demands left. |
| StockAllocation.GreedyRows | server/controllers/forecasting.py:390-400 | Each row names its demand and the component, takes min(demand, stock left), splits the quantity into allocated plus shortfall, and is numbered from 1. |
| StockAllocation.GreedyBounds | server/controllers/forecasting.py:391-392 | With non-negative stock and demands, each allocation is between 0 and the demand, and no shortfall is negative. |
| StockAllocation.RemainingStaysEmpty | server/controllers/forecasting.py:391-402 | With non-negative demands, stock once exhausted stays exhausted. |
| StockAllocation.GreedyPriority | server/controllers/forecasting.py:389-402 | Once a demand is left short, every later demand gets nothing. |
| StockAllocation.AllocateInOrder | server/controllers/forecasting.py:387-403 | The allocation loop writes exactly the greedy rows and sums exactly their shortfalls. |
| Purchasing.EarliestDateIsMinimum | server/controllers/forecasting.py:442-447 | The earliest date is absent exactly when no demand has one. Otherwise it is one of the demands' dates and no later than any of them. |
| Purchasing.EarliestNeededBy | server/controllers/forecasting.py:443-447 | The date loop computes exactly the earliest date. |
| Purchasing.FirstPending | server/controllers/forecasting.py:454-456 | `find_first` returns the first pending row of the component, or none when there is none. |
| Purchasing.UpsertEffect | server/controllers/forecasting.py:458-476 | Merging a shortfall adds exactly that quantity to its component's pending total. Other components' pending totals and every non-pending row are unchanged. |
| Purchasing.UpsertKeepsOnePending | server/controllers/forecasting.py:458-476 | Merging keeps at most one pending row per component; that row's date is the earlier of its old date and the new one. |
| Purchasing.PurchaseUpdateEffect | server/controllers/forecasting.py:412-478 | Only a shortfall on an existing component that cannot be manufactured (no sub-components, or type `'component'`) reaches the pending total. Everything else is unchanged. |
| Purchasing.PurchaseUpdateKeepsOnePending | server/controllers/forecasting.py:412-478 | The purchase step, whatever the component, keeps at most one pending row per component. |
| Purchasing.PendingQuantityUpdate | server/controllers/forecasting.py:460-466 | Replacing one row changes the pending total by the difference of the two rows' pending shares. |
| Purchasing.PendingQuantityAppend | server/controllers/forecasting.py:470-475 | Appending a row adds its pending share. |
| Forecasting.AllocateStepPurchases | server/controllers/forecasting.py:351-410 | One component's allocation changes only its own pending purchase total, by its contribution, and keeps the one-pending-row invariant. |
| Forecasting.StepAllocations | server/controllers/forecasting.py:390-400 | One component's allocation adds rows for that component only: the greedy rows over its serving order. |
| Forecasting.GroupNamesSpec | server/controllers/forecasting.py:339-343 | The dictionary's keys are distinct and are exactly the components that some pending reservation names. |
| Forecasting.GroupDemands | server/controllers/forecasting.py:338-343 | The grouping loop builds exactly the keys in first-appearance order, each with its demands in order. |
| Forecasting.GroupStep | server/controllers/forecasting.py:340-343 | One more reservation extends its component's list and, on first sight, the key order. |
| Forecasting.AllocateGroupsPurchases | server/controllers/forecasting.py:345-347 | Allocating the groups in turn adds each group's contribution to its component's pending total. |
| Forecasting.AllocateGroupsAllocations | server/controllers/forecasting.py:345-347 | Allocating the groups in turn appends each group's greedy rows for its component. |
| Forecasting.ProcessPurchases | server/controllers/forecasting.py:320-349 | After a run each component has at most one pending purchase row, holding exactly its contribution; rows that are not pending are kept. |
| Forecasting.ProcessAllocationsOf | server/controllers/forecasting.py:320-349 | After a run a component's allocation rows are exactly the greedy rows for its pending demands. |
| Forecasting.ProcessIdempotent | server/controllers/forecasting.py:326-347 | Running the allocation again on its own output, with nothing else changed, gives the same tables. |
| Forecasting.ProcessAllocations | server/controllers/forecasting.py:320-349 | The handler writes exactly the specified tables and changes nothing else. The table constraints of `Store.Database.Valid` are kept. |
| Forecasting.AllocateGroupsSnoc | server/controllers/forecasting.py:346-347 | Allocating one more group is one more allocation step. |
| Forecasting.RecalculateTwice | server/controllers/forecasting.py:480-492 | Recalculating twice leaves the allocation rows as once, but the component's pending purchase total grows by its contribution each time. |
| Forecasting.RecalculateAllocationsForComponent | server/controllers/forecasting.py:480-492 | The handler writes exactly the specified tables. The table constraints of `Store.Database.Valid` are kept. |
| Forecasting.AllocateComponentStock | server/controllers/forecasting.py:351-410 | The handler writes the allocation step's two tables and changes nothing else. The table constraints of `Store.Database.Valid` are kept. |
| Forecasting.DeleteReservation | server/controllers/forecasting.py:158-179 | It fails exactly when no row has the id, with 500 and no change. Otherwise every reservation row of the batch and every allocation of it is removed, and nothing else. The table constraints of `Store.Database.Valid` are kept. |
| Forecasting.CreateReservation | server/controllers/forecasting.py:23-58 | It fails with 422 and no change exactly when the quantity is not positive or the priority is outside 1..10. Otherwise it appends the root row and the explosion rows, then runs the allocation. The table constraints of `Store.Database.Valid` are kept. |
| Graph.EdgeTo | server/controllers/graph.py:47-56 | The edge to a child runs from the parent's id to the parent's id, '/', the child's name. Its label is the child's edge amount, and its id is source, '_', target. |
| Graph.NodeList | server/controllers/graph.py:33-58 | The traversal meets the node itself first, with its path as id and its name as label. |
| Graph.FreshProperties | server/controllers/graph.py:36-44 | The visited-set check keeps one node per id, never one already visited, and loses no id. |
| Graph.FreshConcat | server/controllers/graph.py:36-44 | Deduplicating a concatenation is deduplicating the first part, then the second against the first part's ids. |
| Graph.TreeToGraph | server/controllers/graph.py:33-58 | The recursive traversal appends exactly the deduplicated pre-order nodes and every edge in order, and marks every path of the subtree as visited. |
| Graph.ChildrenToGraph | server/controllers/graph.py:46-58 | The child loop appends exactly the children's deduplicated nodes and their edges. |
| Graph.ChildStep | server/controllers/graph.py:46-58 | One more child adds its edge, then its subtree's nodes and edges. |
| Graph.SelfThenChildren | server/controllers/graph.py:34-58 | A node's contribution is its own node followed by its children's. |
| Graph.GetGraph | server/controllers/graph.py:13-74 | The endpoint fails with 400 exactly when the top component does not exist; the 404 raised in the `try` is turned into a 400. Otherwise the nodes are the deduplicated traversal and the edges those that survive the post-filter. |
| Graph.GraphNodes | server/controllers/graph.py:29-60 | Each id appears once, the root node comes first, and the ids are exactly the paths of the tree. |
| Graph.ChildIdsExtendParent | server/controllers/graph.py:34-47 | When the parent's id is not empty, a child's id is its parent's id, '/', and its name. |
| Graph.EdgeEndpointsAreNodes | server/controllers/graph.py:33-58 | When the top's name is not empty, every edge joins two node ids the traversal emits. |
| Graph.ChildEdgeEndpoints | server/controllers/graph.py:46-58 | Below a node whose id is not empty, every edge starts at that node or at a node below it, and ends at a node below it. |
| Graph.EmptyRootDanglingEdge | server/controllers/graph.py:34-47 | With a top named "" and one child "c", the node emitted for the child is "c" but its edge targets "/c", so the edge dangles; the two lemmas above need a non-empty top name. |
| Graph.OneEdgePerChildOccurrence | server/controllers/graph.py:46-58 | There is exactly one edge per occurrence other than the root. |
| Graph.ChildEdgeCount | server/controllers/graph.py:46-58 | There is one edge per child occurrence. |
| Graph.FilterDropsOnlyRootZeroEdges | server/controllers/graph.py:62-63 | The post-filter removes exactly the root edges labelled 0 and keeps the rest. |
| Graph.IdsConcat | server/controllers/graph.py:36-37 | The ids of a concatenation are the union of the ids. |
| Search.LexLeReflexive | apps/admin-dashboard/src/services/service.js:447 | Code-unit order, which stands in for `localeCompare`, is reflexive. |
| Search.LexLeTotal | apps/admin-dashboard/src/services/service.js:447 | Code-unit order is total. |
| Search.LexLeTransitive | apps/admin-dashboard/src/services/service.js:447 | Code-unit order is transitive. |
| Search.LocaleCompareIsLexLe | apps/admin-dashboard/src/services/service.js:447 | The comparison is at most 0 exactly when the first name precedes the second in code-unit order. |
| Search.MatchesQuery | apps/admin-dashboard/src/services/service.js:397-423 | The filter callback, exact, prefix and substring shortcuts and scan loop together, accepts a name exactly when the query is a subsequence of it. |
| Search.FuzzyCompareByRank | apps/admin-dashboard/src/services/service.js:426-448 | The comparator orders names by class (exact, prefix, substring, scattered), then alphabetically. |
| Search.FuzzyOrderIsPreorder | apps/admin-dashboard/src/services/service.js:426-448 | The order the comparator induces is a total preorder, so the sort is well defined. |
| Search.FuzzySearchResult | apps/admin-dashboard/src/services/service.js:389-455 | A query shorter than 2 gives nothing. Otherwise the result is the first ten of the sorted matches: exactly min(10, number of matches) catalogue names, each with the query's characters in order (ignoring case), sorted by the comparator, all of the matches when there are at most 10, and no match left out ranks strictly before a kept one. |
| Search.FuzzyExactFirst | apps/admin-dashboard/src/components/flowchart/componentDialog.tsx:127-182 | A catalogue name equal to the query, ignoring case, puts an exact match first. |
| Search.NameSuggestions | apps/admin-dashboard/src/components/flowchart/componentDialog.tsx:185-196 | Suggestions are shown exactly when there are any. There are some only in create mode with at least two characters typed. |
| Search.SubstringCompareByKey | apps/admin-dashboard/src/components/graph/componentDialog.tsx:49-55 | On matching names the comparator agrees with the key (exact first, then the first-occurrence index), except on two exact matches, where it answers "first" both ways. |
| Search.SubstringOrderIsPreorder | apps/admin-dashboard/src/components/graph/componentDialog.tsx:49-55 | The key order is a total preorder. |
| Search.SubstringSearchResult | apps/admin-dashboard/src/components/graph/componentDialog.tsx:43-57 | A query shorter than 2 gives nothing. Otherwise the result is the first ten of the sorted matches: exactly min(10, number of matches) catalogue names that contain the query (ignoring case), in key order, all of the matches when there are at most 10, and no match left out has a smaller key than a kept one. |
| Search.SubstringLeastIsExact | apps/admin-dashboard/src/components/graph/componentDialog.tsx:52-54 | A matching name that may precede an exact match is itself exact. |
| Search.SubstringExactFirst | apps/admin-dashboard/src/components/graph/componentDialog.tsx:43-57 | A catalogue name equal to the query puts an exact match first. |
| Search.RankersDiffer | apps/admin-dashboard/src/components/graph/componentDialog.tsx:48 | The two rankers differ: "abc" matches "ac" in the fuzzy ranker but not in the substring ranker. |
| Search.SubmitErrorIffInvalid | apps/admin-dashboard/src/components/graph/componentDialog.tsx:176-199 | The graph dialog submits exactly when the name is not blank and the amount is not negative. A blank name reports the name message. |
| Impact.DependentsMembership | apps/admin-dashboard/src/services/service.js:477-482 | A dependent is exactly a key whose non-null list names the component, in key order. |
| Impact.ListsChild | apps/admin-dashboard/src/services/service.js:479 | The `some` loop finds the name exactly when a link of the list names it. |
| Impact.GetTree | apps/admin-dashboard/src/services/service.js:74-85 | A failed request (a network error or a non-ok status) and an empty body both hand the preview the empty map; otherwise the body's tree value, readable or not. |
| Impact.PreviewDeletionImpact | apps/admin-dashboard/src/services/service.js:463-512 | When the tree value cannot be read it returns the fixed failure answer of the `catch`. Otherwise deletion is allowed and the dependents are the keys whose list names the component. The children count is the component's own list length when that is non-empty. Impact is high iff there are dependents or children, and the message follows that precedence. A failed request therefore yields can-delete, low impact and "This component can be safely deleted". |
| Impact.SafeWhenUnused | apps/admin-dashboard/src/services/service.js:470-498 | A component that no list names and that has no non-empty list of its own has no dependents and no children. |
| ClientTree.ChildrenOf | apps/admin-dashboard/src/services/service.js:474 | `treeData[name]` is a list stored under a key equal to `name`, and is absent when no such key holds a non-null list. |
| Canvas.SetLevels | apps/admin-dashboard/src/components/flowchart/canvas.js:62-72 | The recursive walk returns exactly `Canvas.Walk` of its arguments: the same levels and the same visit order as the depth-first reference, for any table it starts from. |
| Canvas.CalculateLevels | apps/admin-dashboard/src/components/flowchart/canvas.js:57-74 | The table is exactly `Canvas.Walk` from the root at level 0 with nothing visited. The root is at level 0, the recorded names are closed under the child lists, and every other name is one level below a parent that lists it. |
| Canvas.Smaller | apps/admin-dashboard/src/components/flowchart/canvas.js:62-72 | Recording a new name strictly reduces the number of unvisited names, so the walk terminates. |
| Canvas.Walk | apps/admin-dashboard/src/components/flowchart/canvas.js:62-72 | The depth-first reference: an already visited name leaves the table unchanged; otherwise the name is recorded at the level after every earlier name and its children are walked one level deeper in list order, each from the table the previous one left. The table only grows and always holds the started name. |
| Canvas.WalkKids | apps/admin-dashboard/src/components/flowchart/canvas.js:67-71 | The child loop of the reference walk only grows the table. |
| Canvas.WalkProps | apps/admin-dashboard/src/components/flowchart/canvas.js:62-72 | The reference walk keeps the table duplicate-free and only extends it; it returns the table unchanged for a visited name and records a new name at the given level; every newly recorded name has all its children recorded, and each one other than the start sits one level below a recorded name that lists it. |
| Canvas.WalkKidsProps | apps/admin-dashboard/src/components/flowchart/canvas.js:67-71 | Walking the remaining children keeps the loop invariant up to the end of the list. |
| Canvas.KidStep | apps/admin-dashboard/src/components/flowchart/canvas.js:68-70 | One child walk keeps the loop invariant, does not increase the number of unvisited names, and the rest of the loop continues from the table it left. |
| Canvas.DepthFirstLevels | apps/admin-dashboard/src/components/flowchart/canvas.js:62-72 | For the lists A: [B, C] and B: [C] the walk from A gives A level 0, B level 1 and C level 2 (the depth along A, B, C rather than the shorter A, C) and visits them in the order A, B, C. |
| Canvas.VisitKeeps | apps/admin-dashboard/src/components/flowchart/canvas.js:68-70 | One child visit keeps the loop invariant of the walk. |
| Canvas.VisitDone | apps/admin-dashboard/src/components/flowchart/canvas.js:67-71 | After the child loop the started name is closed under its list as well. |
| Canvas.ExtendsTrans | apps/admin-dashboard/src/components/flowchart/canvas.js:62-72 | A nested call only extends the table. |
| Canvas.ClosedTrans | apps/admin-dashboard/src/components/flowchart/canvas.js:62-72 | Closure of the newly recorded names survives a nested call. |
| Canvas.ParentedTrans | apps/admin-dashboard/src/components/flowchart/canvas.js:62-72 | Every newly recorded name keeps a parent one level up across a nested call. |
| Canvas.VisitedKept | apps/admin-dashboard/src/components/flowchart/canvas.js:68-70 | The children visited so far stay visited. |
| Canvas.ClosedHoldsPath | apps/admin-dashboard/src/components/flowchart/canvas.js:62-72 | A table closed under the lists holds the end of every path that starts in it. |
| Canvas.RecordedIsReachable | apps/admin-dashboard/src/components/flowchart/canvas.js:62-72 | Every recorded name is reached from the root by some path whose length is its level. |
| Canvas.LevelsAreReachable | apps/admin-dashboard/src/components/flowchart/canvas.js:57-74 | The names that get a level are exactly those reachable from the root. |
| Canvas.Slots | apps/admin-dashboard/src/components/flowchart/canvas.js:78 | The names are listed with their levels in visit order (`levels.entries()`). |
| Canvas.SlotsOf | apps/admin-dashboard/src/components/flowchart/canvas.js:78 | A name is listed at its own level only. |
| Canvas.RecordedArePlaced | apps/admin-dashboard/src/components/flowchart/canvas.js:76-101 | Every recorded name gets a position. |
| Canvas.PlacedAreRecorded | apps/admin-dashboard/src/components/flowchart/canvas.js:76-101 | Every positioned name is recorded, at its level's height and at its slot among the names of its level. |
| Canvas.CalculateNodePositions | apps/admin-dashboard/src/components/flowchart/canvas.js:56-104 | The level table is exactly `Canvas.Walk` from the root. The positioned names are exactly the recorded ones, i.e. those reachable from the root. Each is at y = level × 200 and, centred on x = 0, at its index among the names of its level taken in visit order. |
| Canvas.BuildEdges | apps/admin-dashboard/src/components/flowchart/canvas.js:267-308 | The edge loop emits exactly the specified edges, in key order. |
| Canvas.LinkEdgesMembership | apps/admin-dashboard/src/components/flowchart/canvas.js:271-305 | Under one parent, an edge is emitted exactly for a list entry whose child has a node. |
| Canvas.TreeEdgesMembership | apps/admin-dashboard/src/components/flowchart/canvas.js:268-308 | An edge is emitted exactly for a list entry whose two ends both have a node. Its id is `edge-<parent>-<child>`, its ends are their node ids, and its label is the amount. |
| Layout.NodeColorClamps | apps/admin-dashboard/src/components/flowchart/canvas.js:42-53 | Levels 0 to 6 get seven distinct colours, and every level from 6 on gets the colour of level 6. |
| Layout.RowSpacing | apps/admin-dashboard/src/components/flowchart/canvas.js:91-100 | Neighbours in a row are node width + spacing (200) apart, and the first and last x mirror each other. |
| Layout.RowSumClosed | apps/admin-dashboard/src/components/flowchart/canvas.js:96-97 | Closed form of the sum of a row's first k x values. |
| Layout.RowCentred | apps/admin-dashboard/src/components/flowchart/canvas.js:91-100 | Every row is centred: its x values sum to 0. |
| Layout.NamesAtMembership | apps/admin-dashboard/src/components/flowchart/canvas.js:77-83 | A level's group holds exactly the names listed at that level. |
| Layout.GroupStep | apps/admin-dashboard/src/components/flowchart/canvas.js:78-83 | One step of the grouping loop keeps the groups equal to the names of each level, with levels in first-seen order. |
| Layout.GroupByLevel | apps/admin-dashboard/src/components/flowchart/canvas.js:77-83 | The grouping loop gives each level, in the order first met, with its names in listing order. |
| Layout.PlaceNodes | apps/admin-dashboard/src/components/flowchart/canvas.js:91-101 | A name is positioned exactly when some level's group lists it. Its position is (x of its index in that group, level × 200). |
| NodeUtils.ChildPrefix | apps/admin-dashboard/src/components/flowchart/nodeUtils.js:56-58 | The parent path handed to a child is strictly longer than the node's own path. |
| NodeUtils.ChildEntries | apps/admin-dashboard/src/components/flowchart/nodeUtils.js:53-60 | A node records one triple per child. |
| NodeUtils.Traversal.TraverseNode | apps/admin-dashboard/src/components/flowchart/nodeUtils.js:40-63 | The walk pushes exactly the node's instance, then its children's instances in order. It sets each instance's level in `levels`, and sets `flatTree` entries for the children first and the node's own entry last. |
| NodeUtils.Traversal.TraverseChildren | apps/admin-dashboard/src/components/flowchart/nodeUtils.js:53-60 | The child loop returns the node's triples, each under `<path>/child_<index>/<name>`, and records exactly the children's walks in order. |
| NodeUtils.CalculateNodePositions | apps/admin-dashboard/src/components/flowchart/nodeUtils.js:33-101 | The instances, levels and `flatTree` are those of the walks of each root under `root_<index>`. A path is positioned exactly when it is an instance's path, at that instance's level height and at its slot among its level's paths. |
| NodeUtils.WalkForest | apps/admin-dashboard/src/components/flowchart/nodeUtils.js:65-71 | Walking every fetched root in order with one shared traversal records exactly the instances, levels and `flatTree` entries of each root walked under `root_<index>`. |
| NodeUtils.RecordLevelsConcat | apps/admin-dashboard/src/components/flowchart/nodeUtils.js:50 | Recording two runs of instances in turn is recording their concatenation. |
| NodeUtils.RecordFlatConcat | apps/admin-dashboard/src/components/flowchart/nodeUtils.js:62 | Setting two runs of entries in turn is setting their concatenation. |
| NodeUtils.RecordLevelsElsewhere | apps/admin-dashboard/src/components/flowchart/nodeUtils.js:50 | Recording instances with other paths leaves a path's level alone. |
| NodeUtils.PathsGrow | apps/admin-dashboard/src/components/flowchart/nodeUtils.js:41-58 | Every instance below a node has a path at least as long as the node's. |
| NodeUtils.ChildPathsGrow | apps/admin-dashboard/src/components/flowchart/nodeUtils.js:56-58 | Every instance below a node's children has a longer path than the node. |
| NodeUtils.OwnLevel | apps/admin-dashboard/src/components/flowchart/nodeUtils.js:40-63 | After the walk, `levels` holds the node's own level under its path. |
| NodeUtils.OwnChildren | apps/admin-dashboard/src/components/flowchart/nodeUtils.js:53-62 | After the walk, `flatTree` holds the node's own triples under its path, since that entry is set last. |
| NodeUtils.ChildPathRegistered | apps/admin-dashboard/src/components/flowchart/nodeUtils.js:56-58 | The path in a parent's triple for child k is the path under which that child's instance is registered, one level down. The triple carries the child's name and amount. |
| NodeUtils.RootRegistered | apps/admin-dashboard/src/components/flowchart/nodeUtils.js:66-70 | Root i is registered at level 0 under `root_<i>/<name>`. |
| NodeUtils.OneInstancePerOccurrence | apps/admin-dashboard/src/components/flowchart/nodeUtils.js:40-63 | The walk pushes one instance per occurrence of a node in the tree. |
| NodeUtils.ChildOneInstancePerOccurrence | apps/admin-dashboard/src/components/flowchart/nodeUtils.js:53-60 | The children's walks push one instance per occurrence below them. |
| NodeUtils.LevelsFrom | apps/admin-dashboard/src/components/flowchart/nodeUtils.js:40-58 | No instance below a node has a smaller level than it. |
| NodeUtils.LevelIsDepth | apps/admin-dashboard/src/components/flowchart/nodeUtils.js:40-63 | The names at level `level + d` are exactly the nodes d steps down, each occurrence once, left to right. |
| NodeUtils.ChildLevelIsDepth | apps/admin-dashboard/src/components/flowchart/nodeUtils.js:53-60 | The same holds for the children's instances. |
| NodeUtils.NamesAtLevelConcat | apps/admin-dashboard/src/components/flowchart/nodeUtils.js:74-81 | Grouping a concatenation groups each part in turn. |
| NodeUtils.NoNamesBelow | apps/admin-dashboard/src/components/flowchart/nodeUtils.js:74-81 | Nothing is grouped at a level above every instance's level. |
| NodeUtils.SlotsOf | apps/admin-dashboard/src/components/flowchart/nodeUtils.js:75-80 | Each instance is grouped by its path at its level, in push order. |
| NodeUtils.EntryStep | apps/admin-dashboard/src/components/flowchart/nodeUtils.js:54-57 | One turn of the child loop appends the next child's triple. |
| NodeUtils.PlacedAreInstances | apps/admin-dashboard/src/components/flowchart/nodeUtils.js:88-98 | Every positioned path belongs to an instance, at its level's height and its slot. |
| NodeUtils.InstancesArePlaced | apps/admin-dashboard/src/components/flowchart/nodeUtils.js:74-98 | Every instance's path is positioned. |
| TimeInput.FormatZero | apps/admin-dashboard/src/components/fields/TimeInput.tsx:32 | 0 hours is written "00:00". |
| TimeInput.TimeStringToHours | apps/admin-dashboard/src/components/fields/TimeInput.tsx:41-59 | The empty string is 0. Anything else fails with the format message exactly when it does not match `^(\d{1,2}):(\d{2})$`, and with the minutes message exactly when it matches with minutes of 60 or more. A result is in [0, 100). |
| TimeInput.TwoFields | apps/admin-dashboard/src/components/fields/TimeInput.tsx:37-58 | A two-digit hour and minute field around ':' match the pattern and read back as h + m/60. |
| TimeInput.RoundTrip | apps/admin-dashboard/src/components/fields/TimeInput.tsx:31-59 | For h in 0..99 and m in 0..59, parsing the formatted h + m/60 gives h + m/60 exactly. |
| TimeInput.FormatOfExact | apps/admin-dashboard/src/components/fields/TimeInput.tsx:34-37 | A whole number of minutes is formatted as its hours and minutes. |
| TimeInput.SplitExact | apps/admin-dashboard/src/components/fields/TimeInput.tsx:34-35 | h + m/60 splits back into h whole hours and m rounded minutes. |
| TimeInput.Padded | apps/admin-dashboard/src/components/fields/TimeInput.tsx:37 | Padding to two digits gives digits worth the number, exactly two below 100. |
| TimeInput.DigitsBelow | apps/admin-dashboard/src/components/fields/TimeInput.tsx:44-51 | One or two digits are worth less than 100. |
| TimeInput.MinutesOverflow | apps/admin-dashboard/src/components/fields/TimeInput.tsx:35-37 | 239/120 hours is formatted "01:60", which the parser refuses. |
| TimeInput.HundredHours | apps/admin-dashboard/src/components/fields/TimeInput.tsx:34-37 | 100 hours is formatted "100:00", which the parser refuses. |
| TimeInput.TimeStringToHoursAnyHours | apps/admin-dashboard/src/components/fields/TimeInput.tsx:41-59 | The parser with any number of hour digits fails on format exactly when `^(\d+):(\d{2})$` does not match. Its results are never negative. |
| TimeInput.LongFields | apps/admin-dashboard/src/components/fields/TimeInput.tsx:44-58 | Fields of at least two hour digits and two minute digits read back as h + m/60 under the wider parser. |
| TimeInput.RoundBounds | apps/admin-dashboard/src/components/fields/TimeInput.tsx:35 | Rounding a fraction of an hour gives 0 to 60 minutes, within half a minute. |
| TimeInput.CarriedRoundTrip | apps/admin-dashboard/src/components/fields/TimeInput.tsx:31-59 | With the carry and the wider parser, every non-negative number of hours reads back within half a minute. |
| TimeInput.CarriedParts | apps/admin-dashboard/src/components/fields/TimeInput.tsx:34-37 | The carried formatter writes hours and minutes under 60, within half a minute of its input. |
| ReservationForm.FormatDateShaped | apps/admin-dashboard/src/components/forecasting/CreateReservationModal.tsx:220-239 | The date formatter writes at most 10 digits and '/'. There is a '/' at index 2 and index 5 once the text is that long, and the result is never 2 or 5 characters long. |
| ReservationForm.FormatDateIdempotent | apps/admin-dashboard/src/components/forecasting/CreateReservationModal.tsx:222-233 | Formatting a formatted date changes nothing. |
| ReservationForm.FormatDateDigits | apps/admin-dashboard/src/components/forecasting/CreateReservationModal.tsx:222-233 | The digits written are a prefix of the input's digits, and all of them when fewer than 10 characters are written. |
| ReservationForm.SlashedDigits | apps/admin-dashboard/src/components/forecasting/CreateReservationModal.tsx:222-231 | Dropping other characters and inserting slashes keeps exactly the input's digits. |
| ReservationForm.KeptDigits | apps/admin-dashboard/src/components/forecasting/CreateReservationModal.tsx:222 | Dropping what is neither a digit nor '/' keeps every digit. |
| ReservationForm.SlashAddsNoDigit | apps/admin-dashboard/src/components/forecasting/CreateReservationModal.tsx:225-231 | Inserting a '/' adds no digit. |
| ReservationForm.FormattedDateMatches | apps/admin-dashboard/src/components/forecasting/CreateReservationModal.tsx:220-239 | Eight typed digits come out in the `dd/mm/yyyy` shape the date check asks for. |
| ReservationForm.DateError | apps/admin-dashboard/src/components/forecasting/CreateReservationModal.tsx:116-138 | No date is fine. Otherwise the check passes exactly when the text matches `dd/mm/yyyy` and the date survives `new Date`: year at least 100, a real month, and a day that month has. |
| ReservationForm.EarlyYearsRefused | apps/admin-dashboard/src/components/forecasting/CreateReservationModal.tsx:124-136 | No date of year 0..99 passes, since `Date` maps those years to 1900..1999. |
| ReservationForm.LeapDay | apps/admin-dashboard/src/components/forecasting/CreateReservationModal.tsx:124-136 | 29/02 passes exactly in leap years. |
| ReservationForm.TitleError | apps/admin-dashboard/src/components/forecasting/CreateReservationModal.tsx:94-98 | The title check passes exactly when the title is not all whitespace. |
| ReservationForm.ComponentError | apps/admin-dashboard/src/components/forecasting/CreateReservationModal.tsx:100-104 | The component check passes exactly when a component is chosen. |
| ReservationForm.QuantityError | apps/admin-dashboard/src/components/forecasting/CreateReservationModal.tsx:106-114 | The quantity check passes exactly when the input is not blank and `parseFloat` reads a positive number from its start. A blank input gets the "required" message. |
| ReservationForm.QuantityOfPattern | apps/admin-dashboard/src/components/forecasting/CreateReservationModal.tsx:106-114 | On a plain number the quantity check accepts exactly the unsigned, positive ones. |
| ReservationForm.UnpaddedNotBlank | apps/admin-dashboard/src/components/forecasting/CreateReservationModal.tsx:106 | A string that does not start with whitespace is not blank. |
| ReservationForm.ValidateForm | apps/admin-dashboard/src/components/forecasting/CreateReservationModal.tsx:90-142 | Every check sets its own field's message when it fails. The form is valid exactly when all pass, which is exactly when no message is set. |
| ReservationForm.HandleSubmit | apps/admin-dashboard/src/components/forecasting/CreateReservationModal.tsx:144-164 | Nothing is sent unless the form is valid. Otherwise the request has the positive parsed quantity, the title, component and priority, and a date exactly when one was typed, which is a real day. |
| RelationshipAmount.ParseFloatSafe | apps/admin-dashboard/src/components/graph/relationshipDialog.tsx:18-46 | Blank text is the default 1 with no error. Text that fails the pattern gets the invalid-number message. Every error comes with the value 1. An accepted value lies in (0, 1,000,000] and is what `parseFloat` reads. |
| RelationshipAmount.ParseTrimmed | apps/admin-dashboard/src/components/graph/relationshipDialog.tsx:23-45 | On trimmed text: the invalid-number message exactly off the pattern, and an accepted value in range that `parseFloat` reads. |
| RelationshipAmount.AcceptedAmounts | apps/admin-dashboard/src/components/graph/relationshipDialog.tsx:18-46 | Non-blank text is accepted exactly when it is an unsigned number with value in (0, 1,000,000], and the result is that value. |
| RelationshipAmount.TrimmedAccepted | apps/admin-dashboard/src/components/graph/relationshipDialog.tsx:23-45 | The same, on the trimmed text. |
| RelationshipAmount.PatternNeverNaN | apps/admin-dashboard/src/components/graph/relationshipDialog.tsx:26-43 | Once the pattern matches, `parseFloat` cannot give `NaN`, so the only possible error is the range one. |
| RelationshipAmount.SubmittedAmount | apps/admin-dashboard/src/components/graph/relationshipDialog.tsx:88-97 | The amount is submitted exactly when the parse reports no error; it is in (0, 1,000,000], and 1 for blank text. |
| StockUpdateForm.HandleSubmit | apps/admin-dashboard/src/components/inventory/StockUpdateModal.tsx:57-92 | Blank text, text `parseFloat` cannot read, a relative subtraction beyond the current stock, and a negative absolute total are refused, each exactly in its case and in that order. Anything else submits the parsed amount, the mode and the "Recorded By" text (`scannedBy`, :87 and :192-193). |
| StockUpdateForm.AgreesWithServer | apps/admin-dashboard/src/components/inventory/StockUpdateModal.tsx:62-87 | With a non-negative current stock, a readable amount is submitted exactly when the server's new stock would be non-negative. |
| StockUpdateForm.SubmittedIsNonNegative | apps/admin-dashboard/src/components/inventory/StockUpdateModal.tsx:74-87 | Every submitted update leaves a non-negative stock. |
| StockUpdateForm.CalculatedAmount | apps/admin-dashboard/src/components/inventory/StockUpdateModal.tsx:102 | The preview is the typed text for a new total. Otherwise it is the current stock plus the parsed amount, which is the server's relative result, or NaN exactly when the text cannot be read. |
| StockUpdateForm.PreviewMatchesSubmission | apps/admin-dashboard/src/components/inventory/StockUpdateModal.tsx:87-102 | For a submitted relative update the preview shows the stock the server will write. |
| StockStatus.GetStockStatus | apps/smartstock-mobile/utils/stockUtils.ts:1-5 | Out of stock exactly at 0 or less, low exactly in (0, threshold], in stock exactly above both. |
| StockStatus.GetStockStatusColor | apps/smartstock-mobile/utils/stockUtils.ts:7-16 | Red exactly for out-of-stock and amber exactly for low-stock; any other text is green. |
| StockStatus.StatusMonotone | apps/smartstock-mobile/utils/stockUtils.ts:1-5 | More stock never gives a worse status. |
| StockStatus.NoLowBelowZeroThreshold | apps/smartstock-mobile/utils/stockUtils.ts:1-5 | With a threshold of 0 or less no stock is low. |
| StockStatus.ColorOfStock | apps/smartstock-mobile/utils/stockUtils.ts:1-16 | The colour shown is red exactly at no stock, amber exactly for positive stock up to the threshold, and green otherwise. |
| ComponentForm.ValidateComponentForm | apps/smartstock-mobile/utils/formUtils.ts:34-48 | The first failing check, in the order name, amount, cost, gives the message, each exactly in its case. With none failing the result is null. |
| ComponentForm.NameCheckedFirst | apps/smartstock-mobile/utils/formUtils.ts:35-37 | A missing name masks the amount and cost checks. |
| ComponentForm.ResetComponentForm | apps/smartstock-mobile/utils/formUtils.ts:50-61 | The reset form has an empty name, zero numbers, measure "amount", type "component", empty texts and the given scanner, or "mobile-app" when the scanner is omitted. |
| ComponentForm.DefaultScannerIsMobileApp | apps/smartstock-mobile/utils/formUtils.ts:50 | Calling the reset without a scanner is the same as passing "mobile-app". |
| ComponentForm.ResetFormNeedsName | apps/smartstock-mobile/utils/formUtils.ts:34-61 | A reset form fails on its name, and a non-blank name makes it valid. |
| RelationshipAmount.TrimmedNeverNaN | apps/admin-dashboard/src/components/graph/relationshipDialog.tsx:26-43 | The same, on the trimmed text. |
| Numbers.PatternParses | apps/admin-dashboard/src/components/graph/relationshipDialog.tsx:26-32 | On text matching the number pattern, `parseFloat` reads a number, never `NaN`, and the number is the one the pattern describes, signed. |
| Numbers.UnsignedParses | apps/admin-dashboard/src/components/graph/relationshipDialog.tsx:26-30 | The unsigned part of a match starts with a digit or '.', and `parseFloat`'s digits on it are worth the pattern's value. |
| Numbers.PatternValueNonNegative | apps/admin-dashboard/src/components/graph/relationshipDialog.tsx:26 | The unsigned part of a match is never worth less than 0. |
| Purchasing.CreatePurchaseRequirementIfNeeded | server/controllers/forecasting.py:412-478 | The handler leaves the purchase rows as `PurchaseUpdate` gives them and changes no other table. The table constraints of `Store.Database.Valid` are kept. |

## Left out

- Rendering, styles, navigation, modals, toasts and the React state setters around the modelled client functions: these are UI.
- Network clients, fetch wrappers, Prisma access, FastAPI routing and async/await: these are I/O. Every handler is a sequential procedure on `Store.Database`.
- Authentication, PDF rendering, `checklists.py`, the hooks, and the file writes and deletes of `upload_manual`: these are foreign libraries or filesystem I/O. The stored file name and URL are modelled.
- The wall clock and the random batch and file ids are parameters, so the time-dependent default purchase date is fixed by the caller.
- IEEE floating point: quantities, costs and hours are exact reals. Rounding error, `Infinity`, and the `isFinite` branch of `parseFloatSafe` with its "Number is too large" message are not modelled. That branch cannot be reached from text matching the number pattern with exact reals.
- `parseFloat` is modelled as JavaScript's decimal-prefix reading without exponents or `Infinity`. `trim` and `toLowerCase`, and Python's `str.strip` (`server/controllers/stockupdate.py:21`) and `str.lower` (`server/controllers/manuals.py:23-26`), are modelled on ASCII whitespace and letters. The ASCII separators U+001C, U+001D, U+001E and U+001F, which Python's `str.strip` removes and JavaScript's `trim` keeps, are not whitespace in the model. So a name made only of other whitespace, such as U+00A0, is blank to the source (400) but not to the model, which looks it up (404); and a non-ASCII capital in a file extension is left as it is. `localeCompare` is modelled as code-unit order.
- The date checks model JavaScript `Date` by its outcome: a day that exists, in a year of at least 100. The conversion of the chosen day to an ISO timestamp in the browser's time zone is left out, because it depends on the host's time zone.
- Relationships.CreateRelationship and Relationships.UpdateRelationship store any real amount. `RelationshipCreate` in `server/models.py:51-54` declares `amount: int`, so the server refuses a fractional amount with 422 before the handler runs; amounts are kept real here because the bill-of-materials arithmetic is over reals.
- Foreign-key constraints of the database schema are not part of this model. Only the unique (top, sub) key of the relationship table makes an insert fail.
- `create_reservation` does not check that the component exists, and neither does the model.
- The duplicate stock classifiers inside the mobile screens are left out. Their boundaries differ from `stockUtils.ts`: one compares with `<` against the minimum, and one classifies by sign.
- The mobile app's own stock-update dialog and the read-only forecasting endpoints that only list rows are left out, because they add no rule beyond the ones modelled.
- Canvas.RecordedIsReachable: states only that some path of the recorded length exists. Which path the walk took (the first one met depth-first, not the shortest) is fixed by `Canvas.Walk`, which the table equals, and `Canvas.DepthFirstLevels` shows the two differ.
- Search.SubstringSearchResult: the graph dialog's comparator (`apps/admin-dashboard/src/components/graph/componentDialog.tsx:52-54`) answers -1 both ways for two exact matches, so the order JavaScript's sort gives several exact matches is up to the engine. The model keeps their input order, which is one order the engine may give.
- NodeUtils.TraverseNode: a node whose `children` is absent or null is modelled as one with no children, and null nodes in the input are not modelled.

## Findings

| source | as written | input that shows it | evidently intended | confidence | as-written member | corrected member |
|---|---|---|---|---|---|---|
| apps/admin-dashboard/src/components/fields/TimeInput.tsx:35-37 | the rounded minutes are padded as they are, so a fraction of an hour that rounds up to 60 minutes is written as minute "60" | 239/120 hours (1 h 59.5 min) is written "01:60", and `timeStringToHours` refuses it | carry a minute count of 60 into the hour, writing "02:00" | high, not executed | TimeInput.MinutesOverflow | TimeInput.CarriedRoundTrip |
| apps/admin-dashboard/src/components/fields/TimeInput.tsx:34-49 | the formatter writes every whole hour, but the parser's pattern allows only one or two hour digits | 100 hours is written "100:00", and `timeStringToHours` refuses it | a parser that reads as many hour digits as the formatter writes | high, not executed | TimeInput.HundredHours | TimeInput.TimeStringToHoursAnyHours |
