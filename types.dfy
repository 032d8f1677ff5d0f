/** Shared definitions of src/types/index.ts. */
module Types {
  /** The two visual presets of the widget. */
  datatype Theme = Dark | Light

  /**
   * A directed connection between two bases. `order` staggers the
   * animation of the arc; arcs.json numbers the arcs 0, 1, 2, ...
   */
  datatype Arc = Arc(
    startLat: real, startLng: real,
    endLat: real, endLng: real,
    from: string, to: string,
    order: nat)
}
