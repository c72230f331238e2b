/** The ways a scrape run ends early, named after what the Python code raises. */
module Errors {

  datatype Error =
    | AreaNotFound              // Request.fetch_data: the page title is '404 Not Found'
    | NoForecastForToday        // the today strategy parsed no field set at all
    | MissingKey(key: string)   // KeyError: a criterion absent from the field set that is read
    | NoAttribute(attr: string) // AttributeError: an attribute read on None or on a text node
    | FindOnText                // TypeError: find(..., class_=...) called on a text node, which is a str
    | UnpackMismatch(got: nat)  // ValueError: the sidecar tuple does not unpack into two names
    | NotImplemented            // NotImplementedError: the five/ten-day and weekend strategies
}
