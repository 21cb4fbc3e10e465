/** The .NET exceptions the modelled code can throw, one constructor per
    exception class that matters to its callers. */
module Exceptions {

  datatype Exception =
    | ArgumentNull        // ArgumentNullException: a null path handed to Save
    | WriteFailed         // IOException and friends from File.WriteAllText
    | NullReference       // dereferencing a block the node did not return
    | InvalidOperation    // an offline transaction that fails verification
    | Overflow            // OverflowException from decimal arithmetic or parsing
    | Format              // FormatException from BigInteger.Parse
    | Remote(reason: string) // an error reported by the remote node
}
