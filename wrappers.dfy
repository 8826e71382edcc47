/** Option, Result and the error taxonomy shared by the table engine. */
module Wrappers {

  datatype Option<+T> = None | Some(value: T)

  datatype Result<+R, +E> = Success(value: R) | Failure(error: E)

  /** The exceptions of Ska/Table.py that reach a caller of the engine. */
  datatype TableError =
    | BadQuoteChars          // ParseTableError: quotechars holds something other than ' or "
    | ColumnCountUnset       // UnboundLocalError: a candidate dialect was tried on zero data lines
    | BadHeaderType          // ParseTableError: headertype not 'names', 'rdb' or 'none'
    | RowIndexOutOfRange     // IndexError: header row (or first row for auto names) does not exist
    | NoRecords              // IndexError from numpy: the data slice holds no row to build records from
    | NoFields               // IndexError from numpy: the records have no field, so there is no
                             // first field array to take the shape of
    | NumericFieldName       // AttributeError from numpy: a header row inside the data slice was
                             // converted to numbers in place, and a number has no strip()
    | DuplicateNames         // ValueError from numpy: two fields end up with the same name
    | MissingFieldSection    // KeyError: VOTS header without a FIELD:: section
    | FieldSectionNotTable   // AttributeError: VOTS FIELD:: section left empty
    | NoNameColumn           // VOTS FIELD:: table without a `name` column
    | NameColumnNotText      // VOTS `name` column inferred numeric, unusable as names
}
