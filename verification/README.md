# A verified model of a network-on-chip layout tool

The tool builds the physical layout of a network-on-chip from tiles. This
project models its core in Dafny and proves properties of that model.

A tile is a rectangle of unit cells. It holds:

- logic;
- a central router;
- endpoints;
- master and slave ports on its border;
- PHYs.

A module places tiles and other modules on a larger grid and joins their
ports with wires. Every wire cell counts how many wires cross it
horizontally and vertically.

The model covers:

- **Tiles** (`Tile`, `Blocks`, `Embed`, `CreateTile`). Tiles are created and
  embedded, their ports are placed automatically or manually, and the tile
  is built. Building covers the grid with its markers, the two lookup
  tables of each port kind, the logical graph and mirroring.
- **Modules** (`Paths`, `Compose`). Module grids are composed:
  - component markers are copied;
  - paths are expanded and marked;
  - labels are prefixed;
  - edges get delays;
  - cells are counted.
- **The homogeneous place-and-route engine** (`Coarse`, `Sizing`, `Fine`,
  `Bumps`, `Layout`, `Tiling`). It:
  - validates the requested connections;
  - routes them on the coarse grid of tiles;
  - sizes each channel by its busiest crossing;
  - routes them again on the fine grid;
  - assembles the module record.
- **The heterogeneous maze router** (`General`). It places the given
  components, searches every connection by wires crossed, traces the
  route back and raises the counters along it.
- **The anynet translation** (`Anynet`). It walks the logical graph from
  every router to the next routers and endpoints, and writes one line per
  router.
- **The topology generators**:
  - mesh (`Mesh`);
  - torus (`Torus`);
  - ring (`Ring`);
  - folded torus (`Folded`);
  - custom hop networks (`Custom`);
  - flattened butterfly (`Butterfly`);
  - SlimNoC (`SlimNoC`);
  - hypercube (`Hypercube`).

  `Topology` holds what the generators share: the port counters, and
  `validate_connections` seen from the generator side.

Modelling conventions:

- **Errors.** Every place where the tool stops is an `Err` with the tool's
  message. This covers its own `error()` calls and the crashes Python
  would raise:
  - `IndexError`;
  - `KeyError`;
  - a comparison of a string with a number.
- **Indexing.** Python's list indexing, including negative indices, is the
  one helper `Cells.PyIndex`.
- **Loop variables.** Python loop variables that outlive their loop, and
  are read after a loop that may not have run, are explicit state.
- **Pipelines.** Each pipeline computes what the code as written computes.
  Where the code has a defect, the corrected definition sits beside it and
  carries the intended property (see "## Findings").

Some behaviour is modelled as written and proved. None of it is claimed as
a defect:

- **Ring.** With an odd number of rows, the ring generator links to a row
  below the array (`Ring.RingOddRows`).
- **Folded torus.** With an odd line length, the folded torus reuses a
  port, and `validate_connections` rejects it (`Folded.FoldedOddRejected`).
- **Hypercube.** A hypercube of one row fails on `int("", 2)`
  (`Hypercube.HyperOneRow`).
- **SlimNoC.** It accepts the prime powers in its validation but has port
  tables only for q = 4 and q = 8. Every other q stops with a `KeyError`.

## Model

| member | source | states |
|---|---|---|
| Tile.CheckPoint | src/tile.py:77-97 | An end passes exactly when the kind its last atom names has an item with that index; a router end always passes, and malformed ends fail instead of crashing |
| Tile.CheckConnections | src/tile.py:74-99 | The connection check passes exactly when both ends of every connection pass |
| Tile.Paint | src/tile.py:111-127 | Writing a marker at every port fails exactly when some port lies outside the grid; otherwise each cell shows the marker of the last port written there and keeps its old content if none |
| Tile.TileVertices | src/tile.py:129-133 | The graph's vertices are the router, then the endpoints, masters, slaves and PHYs, each numbered from 0 |
| Tile.UniformDelays | src/tile.py:134-136 | Every connection, and nothing else, gets the tile's one edge delay |
| Tile.BuildTile | src/tile.py:29-136 | Building succeeds exactly when the ids are consecutive, the connections name existing items and every port lies in the grid; the built tile has the painted grid, numbered ports, consistent tables, the listed vertices and the connections with uniform delays |
| Tile.CheckTile | src/tile.py:33-99 | The reader's checks pass exactly when master, slave and PHY ids run 0, 1, 2, ... and every connection end is valid |
| Tile.TileBlock | src/tile.py:101-136 | The tile block carries one box covering the tile, no paths, the numbered ports, tables consistent with them, and the graph |
| Tile.TileGrid | src/tile.py:101-127 | The grid is built exactly when all ports fit; each cell is the closed-form cell of the tile: PHY over slave over master over logic |
| Tile.TileCells | src/tile.py:110-127 | Painting masters, then slaves, then PHYs over logic gives exactly the closed-form cells |
| Tile.TileMarkers | src/tile.py:110-127 | A PHY's cell always shows the PHY marker; a master port's cell shows the master marker unless a slave port or PHY sits on it |
| Tile.TileTablesInverse | src/tile.py:110-127 | When no two ports of a kind share a location, the label-to-location and location-to-label tables are inverse to each other on the ports |
| Tile.NumberedTables | src/tile.py:110-127 | Numbered ports at distinct locations are found by label and by location in both tables |
| Tile.TileMirror | src/tile.py:143-201 | Mirroring a tile keeps its single box, mirroring twice gives the tile back, and no flags change nothing |
| Blocks.LocKeys | src/module.py:108-137 | A location is a key of the location table exactly when some port sits there |
| Blocks.LabKeys | src/module.py:108-137 | A label is a key of the label table exactly when some port carries it |
| Blocks.LocLookup | src/module.py:108-137 | A location maps to the label of the last port sitting there |
| Blocks.LabLookup | src/module.py:108-137 | A label maps to the location of the last port carrying it |
| Blocks.TablesAreInverse | src/module.py:108-137 | With distinct labels and distinct locations the two tables are mutually inverse |
| Blocks.MirrorGrid | src/module.py:213-220 | Cell (i, j) of the mirrored grid is the cell reflected across the flagged axes |
| Blocks.Mirror | src/module.py:211-285 | Mirroring reflects every grid cell; each master, slave and PHY keeps its label (and direction) and moves to the reflected cell; each tile box keeps its extent and covers exactly the reflections of the cells it covered; each path visits the reflected waypoints in order; the tables are rebuilt from the moved ports and the graph is untouched |
| Blocks.MirrorInvolution | src/module.py:211-285 | Mirroring twice with the same flags gives the block back |
| Blocks.MirrorNoFlags | src/module.py:211-285 | Mirroring with both flags false changes nothing |
| Blocks.MirrorGridTwice | src/module.py:213-220 | Reflecting a grid twice gives it back |
| Blocks.MirrorBoxesTwice | src/module.py:222-227 | Re-anchoring the tile boxes twice gives them back |
| Blocks.MirrorPathsTwice | src/module.py:277-285 | Reflecting the paths twice gives them back |
| Blocks.TileBoxFixed | src/tile.py:143-201 | A tile's box is a fixed point of box mirroring and it has no paths, so the tile's mirror agrees with the module's |
| Paths.Run | src/module.py:144-152 | The cells of one hop: as many as the hop is long, starting at its first waypoint, each next to the one before, ending next to the second waypoint |
| Paths.Expand | src/module.py:143-158 | A path expands exactly when it is non-empty and no hop is diagonal; the cells run from its first to its last waypoint, are connected, and number one more than its length |
| Paths.MarkPath | src/module.py:160-178 | Marking a path fails exactly when an interior cell is outside the grid (or, strictly, on a marker); otherwise every wire cell is raised by its uses along the path |
| Paths.MarkCell | src/module.py:160-178 | One marking step succeeds exactly when its cell can be landed on, and raises only that cell's uses |
| Paths.MarkPaths | src/module.py:141-178 | Marking all paths fails exactly when some path cannot land; otherwise markers are kept and each wire cell is raised by the total use of all paths |
| Paths.EndsUntouched | src/module.py:160 | The two ends of a path are never raised by it |
| Paths.InteriorRaised | src/module.py:164-174 | An interior cell raises at least one counter, and both exactly when the path turns there |
| Paths.MarkerCrossing | src/module.py:175-178 | As written, a path through a marker cell is accepted and the marker kept; the strict reading rejects it |
| Compose.Placed | src/module.py:50-51 | A placed component is mirrored at its offset with labels and graph unchanged |
| Compose.ReadComponents | src/module.py:35-54 | Reading succeeds exactly when the ids run 0, 1, ... and every type is known; each component is then placed |
| Compose.CheckList | src/module.py:35-49 | The list checks pass exactly when the ids and types are valid |
| Compose.AllStampsAre | src/module.py:86-94 | The stamps copied are exactly the shifted marker cells of all component grids |
| Compose.StampAll | src/module.py:86-94 | Copying stamps fails exactly when one falls outside the grid or on a cell already filled; otherwise each cell holds the stamp covering it |
| Compose.GatherUniqueLabs | src/module.py:108-137 | Labels unique within every component stay unique across the module after prefixing |
| Compose.ExpandAll | src/module.py:141-158 | All paths expand exactly when each one does, in order |
| Compose.ComposeGrid | src/module.py:61-178 | The composed block holds the module's own paths then the components', the gathered boxes and ports, and tables consistent with them |
| Compose.ComposeGridOk | src/module.py:61-178 | Composition succeeds exactly when no component grid is empty, all markers land on their own cells inside the grid, no hop is diagonal and every interior path cell is inside the grid |
| Compose.InsideIsLanding | src/module.py:160-178 | Marking as written (skipping marker cells) only needs every interior path cell inside the grid |
| Compose.ClearIsLanding | src/module.py:175-178 | Strict marking fails exactly when an interior path cell is outside the grid or under a component marker |
| Compose.ComposedCells | src/module.py:86-174 | A composed cell holds the component marker copied onto it, or else wire counters equal to the total use of the cell by all paths |
| Compose.ComposedTablesInverse | src/module.py:108-137 | When re-labelled ports of one kind sit at distinct locations the module's tables for that kind are inverse on them |
| Compose.CompVerticesAre | src/module.py:189-193 | The module's vertices are exactly the components' vertices, each prefixed with its component index |
| Compose.OwnTimed | src/module.py:195-198 | A component's edges are prefixed and keep their recorded delays; a missing delay stops the tool |
| Compose.CompTimed | src/module.py:189-198 | All components' edges are timed exactly when every component records the delay of each of its edges |
| Compose.DelayOfLength | src/module.py:205-207 | With equal delays on both axes a path costs the delay times its length |
| Compose.RowPathDelay | src/module.py:205-207 | Along one row the corrected delay charges the horizontal delay per column; as written it charges the vertical one |
| Compose.DelaySwapped | src/module.py:205-206 | As written the three-column hop costs 6 with delay_h = 1 and delay_v = 2, where the horizontal cost is 3 |
| Compose.PathTimed | src/module.py:200-208 | Each path becomes one edge from its master label to its slave label, carrying the as-written delay; a missing end stops the tool |
| Compose.ComposeGraph | src/module.py:183-208 | The graph is the prefixed component vertices and edges, then one edge per path, with a delay for exactly each edge |
| Compose.PathEdgeDelay | src/module.py:200-208 | A path's edge that is not added again later keeps the path's delay |
| Compose.GraphDelays | src/module.py:183-208 | The graph's delays are those of its timed edges, later entries winning |
| Compose.BuildModule | src/module.py:288-299 | A module builds exactly when the component list is valid, its grid composes, every component recorded a delay for each of its edges and every path starts on a master port and ends on a slave port; the built module has the requested size, consistent tables, its own paths followed by the components' paths, the gathered boxes and ports, the components' vertices, and one edge per component edge and per path |
| Compose.ModuleMirror | src/module.py:211-285 | A built module mirrored twice is itself; without flags it is unchanged |
| Compose.RowCensus | src/module.py:303-318 | A row's logic, wire and empty counts and its wire loads are the tallies of its cells, and the three counts add up to its length |
| Compose.Classify | src/module.py:303-318 | The grid's counts are the tallies of all its cells and add up to rows times columns |
| Embed.InitialCursors | src/embed_tile_in_grid.py:144-156 | Every face and alignment has a cursor, starting at the face's start cell |
| Embed.WalkClosed | src/embed_tile_in_grid.py:163-175 | Walking the ports succeeds exactly when every alignment is -1 or +1, and then each port sits at its closed-form location |
| Embed.AutoPlace | src/embed_tile_in_grid.py:163-175 | Auto placement succeeds exactly when all alignments are valid, and port k lands at its closed-form location |
| Embed.PortLocs | src/embed_tile_in_grid.py:127-183 | Auto mode succeeds exactly when the faces parse, fit the capacity and the alignments are valid; manual mode keeps the given locations |
| Embed.EmbedTile | src/embed_tile_in_grid.py:20-194 | Embedding succeeds exactly when the description reads, the ports can be placed, and no two ports or PHYs share a cell |
| Embed.PlacedEntries | src/embed_tile_in_grid.py:45-53 | Handing the locations out, masters first, keeps the ids and gives every location to exactly one port |
| Embed.SpacingFits | src/embed_tile_in_grid.py:134-175 | With at most length - 1 ports on a face pair, the k-th port from either end stays strictly inside the face |
| Embed.MovingInside | src/embed_tile_in_grid.py:134-175 | Ports aligned -1 walk up from cell 1, those aligned +1 walk down from length - 2, and neither leaves the face |
| Embed.CrowdFits | src/embed_tile_in_grid.py:134-175 | Once the capacity check passes, a face's count is at most its crowd, which is at most length - 1 |
| Embed.AutoOnBorder | src/embed_tile_in_grid.py:152-175 | Every auto-placed port lies on the border line of its face and inside the tile |
| Embed.EmbeddedUnique | src/embed_tile_in_grid.py:186-194 | An embedded tile never puts two master ports, or two slave ports, on one cell |
| Embed.EmbeddedBuilds | src/embed_tile_in_grid.py:186-194 | An auto-placed embedded tile whose connections and PHYs are valid always builds |
| CreateTile.Create | src/create_tile.py:20-91 | Creation succeeds exactly when the placement mode is known (or there are no ports) and every PHY direction is "in" or "out" |
| CreateTile.CreatedReads | src/create_tile.py:40-53 | A created tile passes the embedding step's read checks |
| CreateTile.CreatedConnectionsValid | src/create_tile.py:33-91 | Every connection of a created tile passes the tile reader's check of both ends |
| CreateTile.RouterDegrees | src/create_tile.py:35-91 | The router's in- and out-degree match the router port counts the embedding step sizes it by, plus the PHYs of each direction |
| Coarse.ElemsCard | src/place_and_route.py:86-94 | A list has as many distinct elements as entries exactly when no element repeats |
| Coarse.ValidateConnections | src/place_and_route.py:82-94 | Validation passes exactly when no master end and no slave end is requested twice |
| Coarse.PortLoc | src/place_and_route.py:68-69 | The port's location is found exactly when Python's indexing finds the port |
| Coarse.FaceOf | src/place_and_route.py:69-79 | A location has a face exactly when it lies on the border, and it lies along that face |
| Coarse.GetPortFace | src/place_and_route.py:67-79 | A port has a face exactly when it exists and lies on the border |
| Coarse.AutoPortFace | src/place_and_route.py:67-79 | An auto-placed port always has a face, the one it asked for unless it sits on a corner cell |
| Coarse.Route | src/place_and_route.py:108-160 | The coarse route runs from the master tile to the slave tile and never changes row and column in one hop |
| Coarse.CoarseRoute | src/place_and_route.py:100-162 | One request is routed exactly when both its ports exist and have faces |
| Coarse.CoarseRouteAll | src/place_and_route.py:97-163 | All requests are routed exactly when each is, one route per request |
| Sizing.MapLine | src/place_and_route.py:172-173 | Coarse index x maps to its first intermediate line exactly when it is a key of the map |
| Sizing.IntermediateTiles | src/place_and_route.py:176-181 | The intermediate grid holds logic exactly on tile cells and is clear on channels |
| Sizing.HopsFromOk | src/place_and_route.py:194-199 | A route with no diagonal hop whose waypoints are keys of the maps is always replayed |
| Sizing.AllBumps | src/place_and_route.py:184-249 | Replaying all routes succeeds whenever every route is aligned and stays on the maps |
| Sizing.MaxCount | src/place_and_route.py:254-255 | The maximum exists exactly when every cell is a counter, and it is the widest counter |
| Sizing.Sizes | src/place_and_route.py:254-255 | The size table succeeds exactly when channel lines hold only counters, with one size per coarse line |
| Sizing.WidestIsBusiest | src/place_and_route.py:254-255 | A channel's size is the largest number of replayed bumps crossing one of its cells |
| Sizing.ComputeSizes | src/place_and_route.py:166-257 | Sizing fails exactly when a route cannot be replayed; otherwise channel sizes are the busiest crossings |
| Sizing.SizesOk | src/place_and_route.py:254-257 | On a replayed grid both size tables always succeed |
| Sizing.CoarseRoutesReplay | src/place_and_route.py:184-199 | Coarse routes between tiles of the array are always replayed: no missing key and no diagonal hop |
| Bumps.BumpAll | src/place_and_route.py:457-468 | Raising counters fails exactly when some bump is outside the grid or on a marker; otherwise every cell is raised by its bumps |
| Bumps.Tally | src/place_and_route.py:335-343 | A tally succeeds exactly when every counted cell is a wire, and it equals the cells' load |
| Bumps.WriteAll | src/place_and_route.py:280-293 | Writing cells fails exactly when some cell is outside the grid; otherwise each cell holds its last write |
| Fine.Starts | src/place_and_route.py:264-277 | Each coarse line starts at the sum of the sizes before it |
| Fine.StartsNext | src/place_and_route.py:264-277 | Consecutive coarse lines abut and the last ends at the total |
| Fine.PortCell | src/place_and_route.py:300-301 | A port's fine cell is its tile's start plus its offset, found exactly when the tile's coarse cell is a key |
| Fine.FineGrid | src/place_and_route.py:279-293 | The fine grid is built exactly when all writes land inside it, and then each cell holds its last write |
| Fine.Put | src/place_and_route.py:371-376 | Setting a key replaces its entry in place or appends a new one |
| Fine.PutIfBetter | src/place_and_route.py:371-376 | An entry is kept unless the new one is strictly better |
| Fine.SegmentsRooted | src/place_and_route.py:304-377 | Every kept entry stands for corners starting at the master port |
| Fine.Leg | src/place_and_route.py:383-391 | The last leg succeeds exactly when the cells it tallies are on wires |
| Fine.LegAsWrittenFree | src/place_and_route.py:388 | As written the last leg tallies nothing: the entry finishes with its corner's wires and length |
| Fine.LegFixedWalks | src/place_and_route.py:388 | The corrected leg walks every cell strictly between corner and port |
| Fine.LegCounterexample | src/place_and_route.py:388 | Three cells before the port, the as-written leg walks nothing where the corrected one walks two cells |
| Fine.Best | src/place_and_route.py:393-400 | The first cheapest candidate (fewest wires, then shortest), none exactly when there are none |
| Fine.Detour | src/place_and_route.py:402-452 | The fallback detour has four waypoints from master to slave |
| Fine.DetourWalk | src/place_and_route.py:425 | The corrected detour walks the Manhattan distance plus one cells, and its waypoints line up |
| Fine.DetourCounterexample | src/place_and_route.py:425 | As written, the detour from (2, 0) to (1, 4) walks four cells where the corrected one walks six |
| Fine.HopOnSegment | src/place_and_route.py:457-468 | Every raised cell of a hop lies on it, the ends are spared, and it raises its own direction's counter |
| Fine.Fallback | src/place_and_route.py:402-452 | The fallback route has four waypoints from master to slave |
| Fine.ChooseJoins | src/place_and_route.py:297-454 | The chosen route runs from the master port to the slave port |
| Fine.RouteOne | src/place_and_route.py:297-468 | One connection's route joins its ports, and the grid is raised by exactly its bumps |
| Fine.RouteOneMarks | src/place_and_route.py:457-468 | Marking a chosen route fails exactly when one of its cells is not a wire |
| Fine.RouteAll | src/place_and_route.py:297-468 | Every route joins its connection's ports, and the grid carries exactly the bumps of all routes |
| Fine.FineRouting | src/place_and_route.py:260-470 | The fine grid is built, every route joins its ports, and the grid carries exactly their wires |
| Fine.RouteInFineGrid | src/place_and_route.py:260-470 | Every fine route joins its connection's master and slave ports |
| Layout.Components | src/place_and_route.py:505-521 | One tile per odd coarse row and column, numbered row by row, each placed at the sum of the sizes before it |
| Layout.ComponentsInside | src/place_and_route.py:505-521 | Every tile of the layout lies inside the fine grid |
| Layout.CoarseStage | src/place_and_route.py:478-485 | After the coarse stage the requests are valid and each has a coarse route |
| Layout.TileStage | src/place_and_route.py:481-482 | The placed tile has the requested width and height |
| Layout.SizeStage | src/place_and_route.py:488 | One size per coarse row and column line |
| Layout.PlaceAndRoute | src/place_and_route.py:474-525 | The valid requests each get a fine route joining the ports their coarse routes name, and the tiles sit at the slots and offsets of the sized grid |
| Layout.Assemble | src/place_and_route.py:501-525 | The module record holds the grid size, the connections and one component per tile |
| Tiling.RowCompsAt | src/place_and_route.py:505-521 | The tile in row-major slot k sits at the start of its odd coarse row and of its odd coarse column, and its id is the first id plus k |
| Tiling.ColCompsAt | src/place_and_route.py:505-521 | The k-th tile of an odd coarse row sits in the k-th odd coarse column, at that column's start, and takes the k-th id from the row's first |
| Topology.UnsharedAccepted | src/place_and_route.py:82-94 | A list repeating no master end and no slave end passes validation |
| Topology.SharedMasterRejected | src/place_and_route.py:82-94 | Two links sharing a master end make validation fail |
| Topology.Assign | src/generate_slimnoc.py:69-78 | Counted ports take the tile's next counter, which then moves on; a missing counter stops the generator |
| Topology.AssignSeparates | src/generate_slimnoc.py:69-78 | Counted links from one tile get distinct ports, as do counted links into one tile |
| General.Offer | src/place_and_route_general.py:132-138 | Extending a path adds the wires it crosses and one cell of length, plus the corner penalty when it turns |
| General.DistanceIgnored | src/place_and_route_general.py:140 | As written an entry is replaced exactly when the offer crosses fewer wires, so length never decides |
| General.TieBreakOrder | src/place_and_route_general.py:140 | With the intended rule an entry is replaced exactly when the offer is better in wires, then in length |
| General.RelaxKeeps | src/place_and_route_general.py:124-145 | One try of a move keeps the search invariant and either changes nothing or lowers the measures |
| General.Search | src/place_and_route_general.py:118-145 | Every cell the search reaches was entered from a strictly better neighbour |
| General.Backtrack | src/place_and_route_general.py:153-174 | The route runs from source to destination inside the grid, keeps exactly the turning cells, and raises each interior cell on its arrival axis and each corner on its outgoing axis too |
| General.Corners | src/place_and_route_general.py:169-170 | The kept waypoints end at the walk's last cell |
| General.TurnNotCollinear | src/place_and_route_general.py:169-170 | Hops along different axes never line up, so kept corners are never collinear |
| General.WalkCons | src/place_and_route_general.py:156-173 | Putting a cell in front of a walk adds it to the route exactly when it turns, and adds its raises |
| General.Defaults | src/place_and_route_general.py:57-63 | Missing mirror flags become false and a missing type becomes "tile"; given values are kept |
| General.Settle | src/place_and_route_general.py:72-73 | The component's grid is reflected as its flags say |
| General.DropAll | src/place_and_route_general.py:76-89 | Placement fails exactly when a cell falls outside the grid or a marker overlaps a filled cell; otherwise each cell holds its marker or the summed counters |
| General.PinLoc | src/place_and_route_general.py:101-108 | An end is found exactly when the component index and the label exist, at the component's offset plus the port's place |
| General.PinLocFound | src/place_and_route_general.py:101-108 | An end is found exactly when some port of the component carries its label |
| General.RouteOne | src/place_and_route_general.py:93-175 | One connection stops exactly when an end is missing; a found route joins the ends with its traced walk and raises exactly its bumps |
| General.RouteAll | src/place_and_route_general.py:93-175 | Routing stops exactly when some connection has a missing end; otherwise each found route joins its connection and the grid only gains counters |
| General.PlaceAndRoute | src/place_and_route_general.py:53-175 | The flow succeeds exactly when placement succeeds, every end is found and there is a first component; each kept route joins its connection |
| Anynet.Index | src/translate_lm_to_bs.py:45-50 | The first position of an element, present exactly when the element is in the list |
| Anynet.Step | src/translate_lm_to_bs.py:36-43 | A neighbour gets its distance through the edge's delay and is recorded as router, endpoint or queued; a missing delay stops |
| Anynet.Visit | src/translate_lm_to_bs.py:36-43 | Visiting the neighbours succeeds exactly when each has a delay, and only adds distances |
| Anynet.Run | src/translate_lm_to_bs.py:34-43 | A finished walk has an empty queue and extends its start |
| Anynet.Pop | src/translate_lm_to_bs.py:35-43 | One round removes the first queued vertex and appends its inner successors, routers and endpoints |
| Anynet.Weight | src/translate_lm_to_bs.py:48 | The written weight is at least 1 and equals the distance from 1 on |
| Anynet.Hops | src/translate_lm_to_bs.py:46-50 | The entries are the reached routers, then endpoints, each numbered by its list position |
| Anynet.Translate | src/translate_lm_to_bs.py:28-51 | One line per router, in order, numbered by its first position in the router list |
| Anynet.TranslateNumbers | src/translate_lm_to_bs.py:45 | With no vertex listed twice, line k is numbered k |
| Anynet.RunFuel | src/translate_lm_to_bs.py:34-43 | A walk that ends within a bound ends the same way with any larger bound |
| Anynet.TranslateFuel | src/translate_lm_to_bs.py:28-51 | A successful translation is the same for every larger bound |
| Anynet.TranslateOkIff | src/translate_lm_to_bs.py:28-51 | Translation succeeds exactly when the graph is well formed and every router's line can be written |
| Anynet.SpinNeverEnds | src/translate_lm_to_bs.py:34-43 | As written, the walk on a cycle of inner vertices never ends, whatever the bound |
| Anynet.FromOnceEnds | src/translate_lm_to_bs.py:34-43 | The corrected walk, visiting each vertex once, always ends within as many rounds as there are edge heads |
| Anynet.DecimalInjective | src/translate_lm_to_bs.py:45 | Distinct numbers have distinct decimal texts |
| Anynet.LineText | src/translate_lm_to_bs.py:45-51 | A line starts with "router" and its number and ends in a newline |
| Anynet.FileLines | src/translate_lm_to_bs.py:45-51 | The file has exactly one newline per router line |
| Mesh.Generate | src/generate_mesh.py:12-39 | The generator returns the four mesh ports and the mesh links |
| Mesh.MeshLinks | src/generate_mesh.py:28-37 | The links are exactly those between vertical or horizontal neighbours, both ways, on facing ports |
| Mesh.MeshUnshared | src/generate_mesh.py:28-37 | No end repeats, so validation accepts the mesh |
| Mesh.MeshCount | src/generate_mesh.py:28-37 | Two links per neighbouring pair |
| Mesh.MeshTwoByTwo | src/generate_mesh.py:28-37 | A 2 x 2 array has eight links |
| Torus.Generate | src/generate_torus.py:14-47 | An empty configuration is fatal; otherwise the mesh ports and the torus links |
| Torus.TorusLinks | src/generate_torus.py:39-44 | Every tile links forward on ports 0 and 1 with wrap-around, and back on ports 2 and 3 exactly when bidirectional |
| Torus.TorusInRange | src/generate_torus.py:36-44 | Every end lies on the array on a mesh port |
| Torus.TorusCount | src/generate_torus.py:36-44 | Two links per tile, four when bidirectional |
| Torus.TorusUnshared | src/generate_torus.py:36-44 | No master end and no slave end repeats |
| Ring.Generate | src/generate_ring.py:14-59 | An empty configuration is fatal; otherwise the ring ports and links |
| Ring.RingPortIds | src/generate_ring.py:33-59 | Every link uses port 0 or 1 at both ends |
| Ring.RingSwapClosed | src/generate_ring.py:33-59 | With bidirectional links every link's reverse is a link |
| Ring.RingAcross | src/generate_ring.py:33-37 | Even rows run east and odd rows west across the middle columns, both when bidirectional |
| Ring.RingOddRows | src/generate_ring.py:39-40 | With an odd row count the last row's turn leads to a row outside the array |
| Folded.FoldedPorts | src/generate_folded_torus.py:23-35 | Two or four ports, masters and slaves paired on one face with opposite alignment |
| Folded.Generate | src/generate_folded_torus.py:14-76 | An empty configuration is fatal; otherwise the folded ports and links |
| Folded.FoldedRows | src/generate_folded_torus.py:40-57 | With an even column count each tile has exactly one forward row link, to the next position of the folded tour |
| Folded.FoldedCols | src/generate_folded_torus.py:58-76 | With an even row count each tile has exactly one forward column link, to the next position of the folded tour |
| Folded.FoldedBack | src/generate_folded_torus.py:45-76 | The links on ports 2 and 3 are exactly the forward links reversed, present only when bidirectional |
| Folded.FoldedNear | src/generate_folded_torus.py:40-76 | Every link stays in a row or column and spans one or two tiles |
| Folded.FoldedOddRejected | src/generate_folded_torus.py:53-54 | With an odd column count one tile has two port-0 links, and validation rejects the list |
| Folded.TourCycle | src/generate_folded_torus.py:40-57 | Following the folded order from 0 visits every position once and returns to 0 |
| Custom.CustomPorts | src/generate_custom.py:26-50 | The mesh ports, then two east ports per column hop and two north ports per row hop |
| Custom.Generate | src/generate_custom.py:14-19 | The configuration must have exactly two entries; then the custom ports and links |
| Custom.BaseIsMesh | src/generate_custom.py:57-65 | The base network is exactly the mesh |
| Custom.CustomMesh | src/generate_custom.py:57-65 | The links on ports 0 to 3 are exactly the mesh links |
| Custom.CustomColNet | src/generate_custom.py:68-73 | Column hop network i joins row j and row j + hop of each column, forward and back on its own two ports |
| Custom.CustomRowNet | src/generate_custom.py:76-81 | Row hop network i joins column j and column j + hop of each row on its own two ports |
| Custom.CustomOnArray | src/generate_custom.py:37-81 | With no negative hop every link joins tiles of the array on ports the tile has |
| Custom.CustomUnshared | src/generate_custom.py:56-81 | No end repeats, whatever the hops, so validation accepts the list |
| Butterfly.GenerateAsWritten | src/generate_flattened_butterfly.py:12-71 | The generator as written; from three rows on it builds exactly the corrected list |
| Butterfly.AsWrittenShared | src/generate_flattened_butterfly.py:31 | As written, a 2 x 4 array starts the row counters at 3, reuses port 3, and validation rejects it |
| Butterfly.ButterflyUnshared | src/generate_flattened_butterfly.py:26-71 | With the row counters after the column ports no end repeats and validation accepts |
| Butterfly.ButterflyTorus | src/generate_flattened_butterfly.py:44-64 | All links of the bidirectional torus are present |
| Butterfly.ButterflyExpress | src/generate_flattened_butterfly.py:49-71 | Every tile has a counted link to each non-neighbour of its column and of its row, on that network's ports |
| Butterfly.ButterflyShape | src/generate_flattened_butterfly.py:44-71 | Every link is a torus link or a counted link between non-neighbours of one line |
| Butterfly.ButterflyPortsExist | src/generate_flattened_butterfly.py:14-36 | Every link uses ports the tile has |
| SlimNoC.Plus | src/generate_slimnoc.py:9-28 | Field addition is the exclusive or of the bit patterns |
| SlimNoC.PlusCancel | src/generate_slimnoc.py:9-28 | Adding the same element twice gives back the start, so addition is a permutation |
| SlimNoC.NodeB | src/generate_slimnoc.py:55-66 | For prime powers the partner is (sa * sb + na) mod q; for the tables it is the field expression, with Python's negative indexing; other q stop |
| SlimNoC.NodeBSolves | src/generate_slimnoc.py:55-66 | For fixed subgroups the partner map is a bijection on the nodes |
| SlimNoC.OffsetsFit | src/generate_slimnoc.py:40-49 | The offsets are distinct field elements, equally many per group |
| SlimNoC.SlimPorts | src/generate_slimnoc.py:101-114 | One east port per offset, then q north ports, masters and slaves alike |
| SlimNoC.KnownIff | src/generate_slimnoc.py:116-138 | Every counter the links use exists exactly when the q x 2q block fits the array |
| SlimNoC.Generate | src/generate_slimnoc.py:81-141 | Generation succeeds exactly when the configuration has three entries and fits; otherwise the tool's message |
| SlimNoC.GenerateConns | src/generate_slimnoc.py:81-141 | A fitting configuration yields the ports and the connection list |
| SlimNoC.ConnExpected | src/generate_slimnoc.py:122-138 | Link k is item k numbered from the counters |
| SlimNoC.SlimIntraLinks | src/generate_slimnoc.py:124-131 | Every node links to its neighbour at each offset of its group, on east ports |
| SlimNoC.SlimInterLinks | src/generate_slimnoc.py:132-138 | Every node of group 0 links both ways with its partner in every subgroup of group 1, on north ports |
| SlimNoC.SlimShape | src/generate_slimnoc.py:122-138 | Every link is an offset link in a subgroup or a partner link across groups |
| SlimNoC.SlimUnshared | src/generate_slimnoc.py:116-138 | No end repeats, validation accepts, and every port exists on the tile |
| Hypercube.Log2 | src/generate_hypercube.py:33-39 | A logarithm it finds is exact: two to that power gives the size back |
| Hypercube.PowerIff | src/generate_hypercube.py:33-35 | A size passes the check exactly when it is a power of two |
| Hypercube.ValueBits | src/generate_hypercube.py:82-83 | Reading back an id's digits gives the id |
| Hypercube.BitsValue | src/generate_hypercube.py:82-83 | Writing out a digit list's value gives the list back |
| Hypercube.FlipDistance | src/generate_hypercube.py:84-87 | Flipping one digit moves exactly one position away |
| Hypercube.DistanceOne | src/generate_hypercube.py:84-87 | A list one position away is one flip |
| Hypercube.EdgesExactly | src/generate_hypercube.py:80-87 | The edges are exactly the ordered pairs of ids one digit apart |
| Hypercube.PlaceOf | src/generate_hypercube.py:17-24 | An id sits in the row of its high digits and the column of its low digits, through the maps |
| Hypercube.HyperPortsLayout | src/generate_hypercube.py:51-77 | The mesh ports, then north column ports, then east row ports |
| Hypercube.Classify | src/generate_hypercube.py:105-132 | A link fails exactly when it changes both row and column; a fixed link joins its two tiles |
| Hypercube.ClassifyPorts | src/generate_hypercube.py:105-132 | Mesh neighbours get facing ports; other links are counted on the column or row network |
| Hypercube.TranslateOkIff | src/generate_hypercube.py:96-133 | The translation succeeds exactly when every edge does |
| Hypercube.Generate | src/generate_hypercube.py:27-136 | Non-positive sizes and sizes that are not powers of two stop the tool; success has the hypercube ports |
| Hypercube.HyperOk | src/generate_hypercube.py:27-136 | On a valid array generation succeeds with rows x cols x (log2 rows + log2 cols) links |
| Hypercube.HyperLink | src/generate_hypercube.py:96-133 | Link i d + j joins id i with its digit j flipped, in one column for a row digit and one row otherwise; neighbours use facing ports |
| Hypercube.HyperOneRow | src/generate_hypercube.py:20-23 | A single row fails on the empty row digits, although its sizes are powers of two |

## Left out

- Reading and writing XML, the configuration module and all file output.
  Components arrive as typed records and results are returned as values.
- Floating-point physics. Tile width and height in cells, per-cell wire
  delays and the tile's edge delay are integer inputs. The area, power
  and delay roll-ups are not modelled.
- Integer delays. Anynet.Weight takes the distance as a whole number of
  cycles, so `round()` is not modelled (src/translate_lm_to_bs.py:48). The
  tile's edge delay is an input (src/tile.py:135-140).
- Paths.MarkPaths: the collision count and the unused "already occupied"
  message of `compose_grid` are dropped (src/module.py:140-178). As written
  neither affects the result.
- Hypercube.Generate: the Gray-code maps (sympy's `GrayCode`) are
  parameters. They are only required to arrange the rows and columns into
  range (`Arranges`), not to be bijections or Gray orders.
- Anynet.Run: it carries a `fuel` bound on the number of vertices popped.
  The tool has no bound and loops forever on a cycle of inner vertices.
  RunFuel and TranslateFuel show that the bound never changes a result
  once one exists.
- Blocks.Mirror: mirroring is a pure function that returns a new block.
  The tool updates the object in place (src/module.py:51,
  src/place_and_route_general.py:73).
- The stacked chip, visualisation, debug printers, console messages and
  the experiment scripts.
- `read_and_translate` in the anynet translation: it only reads a module
  or stacked chip and dispatches.
- Anynet.Hops: the endpoint entry's text is modelled; the output file's
  name and location are not.

## Findings

| source | as written | input that shows it | evidently intended | confidence | as-written member | corrected member |
|---|---|---|---|---|---|---|
| src/module.py:205-206 | a path's row change is charged `delay_h` and its column change `delay_v` | path [(0,0),(0,3)], delay_h = 1, delay_v = 2: charged 6 | horizontal moves cost `delay_h`: 3 | not executed | Compose.DelaySwapped | Compose.RowPathDelay |
| src/module.py:175-178 | a path crossing a component marker builds an error message but is never stopped | a 1 x 3 grid with a logic cell in the middle and a path through it is accepted | such a module is rejected | not executed | Paths.MarkerCrossing | Compose.ClearIsLanding |
| src/place_and_route.py:388 | the last leg loops from the corner's fixed coordinate to the slave's, which the guard just made equal, so it never tallies a cell | corner (3, 1), slave (3, 4): nothing tallied | the cells between corner and port are tallied | not executed | Fine.LegCounterexample | Fine.LegFixedWalks |
| src/place_and_route.py:425 | the third hop of the fallback detour steps by `vdir` instead of `hdir` | master (2, 0), slave (1, 4): four cells walked | six cells walked | not executed | Fine.DetourCounterexample | Fine.DetourWalk |
| src/place_and_route_general.py:140 | the second clause repeats `cols <` and can never add anything, so length never breaks a tie | offer with equal wires and length 2 against a held length 7: not taken | the shorter path wins a tie | not executed | General.DistanceIgnored | General.TieBreakOrder |
| src/generate_flattened_butterfly.py:31 | row counters start at `4 + (rows - 3)`, below the column block when rows < 3 | 2 x 4 array: the row counter 3 reuses port 3 and validation fails | row counters start after the column ports | not executed | Butterfly.AsWrittenShared | Butterfly.ButterflyUnshared |
| src/translate_lm_to_bs.py:34-43 | the walk keeps no visited set | a cycle of two inner vertices reached from a router: the walk never ends | each vertex is walked once | not executed | Anynet.SpinNeverEnds | Anynet.FromOnceEnds |
