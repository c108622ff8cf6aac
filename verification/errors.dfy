/** The ways the modelled core can fail, one constructor each, with the
    Python exception each one raises. */
module Errors {

  datatype Error =
    /** `conf['a.<name>']` on a section the configuration does not have (KeyError). */
    | MissingSection(section: string)
    /** A required key of an address section is absent (KeyError). */
    | MissingKey(section: string, key: string)
    /** A recipient string with neither a newline nor a semicolon (ValueError). */
    | NoDelimiter
    /** A CSV file without even a header row (`next(rs)` raises StopIteration). */
    | MissingHeader
    /** `get_format` found no format with the requested id (ValueError). */
    | UnknownFormat(id: int)
    /** `ss[0]` on an empty sender list (IndexError). */
    | NoSender
    /** `ps[0]` on a missing or empty product list (TypeError or IndexError). */
    | NoProduct
    /** A format whose label grid has no columns or no rows (ZeroDivisionError). */
    | EmptyGrid
}
