/** Optional values (Ruby's nil) and the outcome of an operation that may raise. */
module Wrappers {

  /** `None` stands for Ruby's `nil`. */
  datatype Option<+T> = None | Some(value: T) {
    function GetOr(default: T): T {
      if Some? then value else default
    }
  }

  /** The kinds of Ruby exception the weather library lets escape to its caller. */
  datatype Error =
    | NilReceiver             // NoMethodError: a method called on nil (a missing element, text or attribute)
    | Runtime(message: string) // RuntimeError raised explicitly with `raise "..."`
    | ArgumentOutOfRange      // ArgumentError from Time.local on a field out of range
    | NilTime                 // TypeError from Time.parse(nil)
    | Malformed               // the text is not XML, or the document has no root element
    | Transport               // Net::HTTP.get failed
    | CacheStore              // MemCache#set failed
    | UndefinedMethod         // NoMethodError: a cache method called before the cache module was mixed in

  /** Either the value an operation returns or the exception it raises. */
  datatype Result<+T> = Ok(value: T) | Err(error: Error)
}
