/** `std::ifstream` as the chunk loops use it. */
module Files {
  import opened Octets
  import opened Chunking

  /** End-of-file is set only by a read that falls short; after that, reads
      deliver nothing. */
  class InFile {
    const data: Bytes
    var pos: nat
    var eof: bool

    constructor (contents: Bytes)
      ensures data == contents && pos == 0 && !eof && Valid()
    {
      data, pos, eof := contents, 0, false;
    }

    predicate Valid()
      reads this
    {
      pos <= |data| && (eof ==> pos == |data|)
    }

    /** The pieces that a loop of reads of `n` bytes will still see. */
    function Pieces(n: nat): (pieces: seq<Bytes>)
      requires Valid() && n > 0
      reads this
      ensures pieces != []
    {
      Cut(data[pos..], n)
    }

    /** `read` followed by `gcount`: the bytes delivered. */
    method Read(n: nat) returns (bytes: Bytes)
      requires Valid() && n > 0
      modifies this
      ensures Valid() && bytes == old(Pieces(n))[0]
      ensures old(eof) ==> eof
      ensures eof <==> old(|Pieces(n)|) == 1
      ensures !eof ==> Pieces(n) == old(Pieces(n))[1..] && |data| - pos < old(|data| - pos)
      ensures pos == old(pos) + |bytes| && |bytes| <= n
    {
      if eof {
        return [];
      }
      if |data| - pos < n {
        bytes := data[pos..];
        pos, eof := |data|, true;
      } else {
        bytes := data[pos..pos + n];
        assert data[pos..][n..] == data[pos + n..];
        pos := pos + n;
      }
    }
  }
}
