/** A library entry: the key under which it is stored, its display name, its
    CNA fingerprint and its colour code (src/pattern.h, src/pattern.cpp). */
module Patterns {

  datatype Pattern = Pattern(key: string, name: string, fingerprint: string, color: string)

  /** The constructor takes key, name, fingerprint and colour in that order, and
      each getter returns the argument given in that position. */
  function MakePattern(key: string, name: string, fingerprint: string, color: string): (p: Pattern)
    ensures p.key == key && p.name == name
    ensures p.fingerprint == fingerprint && p.color == color
  {
    Pattern(key, name, fingerprint, color)
  }

  /** operator<<: appends the fingerprint, and nothing else, to what the stream
      already holds. */
  function Write(out: string, p: Pattern): (r: string)
    ensures |r| == |out| + |p.fingerprint|
    ensures r[..|out|] == out && r[|out|..] == p.fingerprint
  {
    out + p.fingerprint
  }
}
