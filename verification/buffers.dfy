// Byte buffers that are filled front to back at a moving offset.
module Buffers {

  // memcpy(buffer + offset, s, |s|), also for the output of snprintf.
  method CopyTo(buffer: array<char>, offset: nat, s: string) returns (next: nat)
    requires offset + |s| <= buffer.Length
    modifies buffer
    ensures next == offset + |s|
    ensures buffer[..next] == old(buffer[..offset]) + s
    ensures forall i :: next <= i < buffer.Length ==> buffer[i] == old(buffer[i])
  {
    for i := 0 to |s|
      invariant buffer[..offset] == old(buffer[..offset])
      invariant buffer[offset..offset + i] == s[..i]
      invariant forall j :: offset + i <= j < buffer.Length ==> buffer[j] == old(buffer[j])
    {
      buffer[offset + i] := s[i];
    }
    next := offset + |s|;
    assert buffer[..next] == buffer[..offset] + buffer[offset..next];
  }
}
