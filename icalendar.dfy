/**
 * The calendar documents the filter reads and writes, as the `icalendar` library presents
 * them after parsing (RFC 5545): top-level properties as key/value pairs in iteration order,
 * and components, each with a name such as "VEVENT" (RFC 5545 section 3.6.1), an optional
 * SUMMARY (section 3.8.1.12) and its remaining fields.
 */
module ICalendar {
  import opened Wrappers

  /** A property: its name as the library reports it and its value, kept as opaque text. */
  datatype Property = Property(key: string, value: string)

  /** A calendar component; the filter only inspects `name` and `summary`. */
  datatype Component = Component(name: string, summary: Option<string>, fields: seq<Property>)

  /**
   * A parsed source calendar: `items` is what iterating its top-level properties yields,
   * in order, and `walk` is the sequence of components its traversal visits, in order.
   */
  datatype SourceCalendar = SourceCalendar(items: seq<Property>, walk: seq<Component>)

  /** A calendar under construction, filled in place by `Add` and `AddComponent`. */
  class Calendar {
    var properties: seq<Property>
    var components: seq<Component>

    /** A new calendar has no properties and no components. */
    constructor ()
      ensures properties == [] && components == []
    {
      properties := [];
      components := [];
    }

    /** Adds a top-level property after those already present. */
    method Add(key: string, value: string)
      modifies this
      ensures properties == old(properties) + [Property(key, value)]
      ensures components == old(components)
    {
      properties := properties + [Property(key, value)];
    }

    /** Adds a component, unchanged, after those already present. */
    method AddComponent(c: Component)
      modifies this
      ensures components == old(components) + [c]
      ensures properties == old(properties)
    {
      components := components + [c];
    }
  }
}
