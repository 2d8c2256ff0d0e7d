# Bike-share station capacity view — a Dafny model

The sketch `00_TestingGround/scripts/sketch.js` loads a bike-share station
status feed and shows one circle per station on a grid. This project models its
two pieces of logic:

- **Capacity aggregation** (`getStationData`): each station's capacity is the sum
  of bikes available, docks available, bikes disabled and docks disabled; the
  global `maxCapacity` is reset to 0 on every load and raised to the largest
  capacity seen. Modelled in `capacity.dfy` (the `Station` record, the capacity
  of one station, and `MaxCapacity`, the specification of the running maximum
  with its properties) and in `sketch.dfy` (class `StationView`, which holds the
  sketch's globals `stationData` and `maxCapacity` and runs the loop).
- **Grid layout** (`drawStations`): station `i` goes to row `floor(i/12)`,
  column `i % 12`, with its circle centred at
  `(50 + 100*column, 50 + 120*row)` and 80 pixels wide. Modelled in `layout.dfy`
  (pure functions and lemmas) and `StationView.DrawStations`, which returns the
  circles the loop draws, in order.

The station list is taken as already parsed: one record per station with its
id and four integer counts. JavaScript's `floor(i / 12)` and `i % 12` agree with
Dafny's `/` and `%` for the non-negative indices used here, and all values are
small integers, so unbounded `int` is exact.

## Model

| member | source | states |
|---|---|---|
| Capacity.Max | 00_TestingGround/scripts/sketch.js:36 | `max` of two numbers is at least both and equal to one of them |
| Capacity.StationCapacity | 00_TestingGround/scripts/sketch.js:31-35 | a station's capacity (the sum of its four counts) is non-negative and bounds each count when the counts are non-negative |
| Capacity.MaxCapacity | 00_TestingGround/scripts/sketch.js:28-37 | the maximum after the loop is non-negative, is at least every station's capacity, and is either the initial 0 or the capacity of some station |
| Capacity.MaxCapacityStep | 00_TestingGround/scripts/sketch.js:36 | one loop iteration folds the next station's capacity into the running maximum with `max` |
| Capacity.MaxCapacityEmpty | 00_TestingGround/scripts/sketch.js:28-29 | for an empty station list the maximum is 0 |
| Capacity.MaxCapacityAttained | 00_TestingGround/scripts/sketch.js:28-36 | the maximum equals some station's capacity exactly when some station's capacity is non-negative; so it is attained for every non-empty list with non-negative counts |
| Capacity.MaxCapacityUnique | 00_TestingGround/scripts/sketch.js:28-37 | the three properties of the maximum (non-negative, an upper bound, 0 or attained) determine it uniquely |
| Layout.Row | 00_TestingGround/scripts/sketch.js:46 | the row `r` of index `i` satisfies `12*r <= i < 12*(r+1)` |
| Layout.Column | 00_TestingGround/scripts/sketch.js:47 | the column is below 12 and `row*12 + column == i` |
| Layout.Centre | 00_TestingGround/scripts/sketch.js:49 | the centre lies within the 12 columns, on the lattice of cell centres fixed by the margins (50, 50) and spacings (100, 120), in exactly the cell (column, row) of the index |
| Layout.CentreInjective | 00_TestingGround/scripts/sketch.js:46-49 | distinct indices give distinct centres |
| Layout.CentreSuccessor | 00_TestingGround/scripts/sketch.js:45-49 | the layout is row-major: the next index is one spacing to the right, or at the left margin one row down after column 11 |
| Sketch.StationCircle | 00_TestingGround/scripts/sketch.js:49 | the circle for station `i` is 80 by 80 and lies in cell (column, row) of the grid |
| Sketch.StationView.constructor | 00_TestingGround/scripts/sketch.js:3-4 | before any load there is no station data |
| Sketch.StationView.GetStationData | 00_TestingGround/scripts/sketch.js:26-40 | stores the loaded list, and `maxCapacity` becomes `MaxCapacity` of that list alone (reset to 0 first, so earlier loads do not matter); then draws one circle per station |
| Sketch.StationView.DrawStations | 00_TestingGround/scripts/sketch.js:43-52 | draws exactly one circle per station, the i-th being station i's, with pairwise distinct centres |

## Left out

- Fetching the feed (`queryAPI`, `loadJSON` and the feed URL): network I/O through a library callback; `GetStationData` receives the parsed list instead.
- Canvas and host setup (`setup`: `createCanvas`, `textSize`, `textFont`, `noLoop`, `console.log`) and `print(maxCapacity)`: library side effects with no logic.
- `background(255)` and `fill(0)` in `drawStations`: drawing state only; the model keeps the arguments of each `ellipse` call.
- The JSON nesting `data.stations` and the unused `station_id` read: the station list is a flat sequence of records.
- The commented-out stubs `getMaxValues`, `trip`, `drawButtons`, `mousePressed`, `drawLegend`: they have no body.
- Missing or non-numeric counts in the feed (which JavaScript would turn into `NaN` or string concatenation): counts are modelled as integers.
- Calling `drawStations` before any data has arrived (JavaScript would fail reading `stationData.data`): `DrawStations` requires a load to have happened, as the sketch only calls it from `getStationData`.
