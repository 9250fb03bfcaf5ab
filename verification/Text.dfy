/** Character classes of the strings package, for single bytes. */
module Text {
  function Lower(c: char): char { if 'A' <= c <= 'Z' then (c as int + 32) as char else c }

  predicate IsSpace(c: char) { c == ' ' || '\t' <= c <= '\r' }
}
