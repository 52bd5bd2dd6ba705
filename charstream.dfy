/**
 * The character cursor of src/charstream.rs: an input string and a position
 * that `NextChar` advances and `Putback` steps back.
 */
module CharStream {
  import opened Wrappers

  /** Reported by `New` for an empty input ("Empty input"). */
  datatype EmptyStringError = EmptyStringError

  class CharStream {
    const input: string
    var currentPosition: nat

    /** The stream itself; `New` is the checked way to build one. */
    constructor FromString(input: string)
      ensures this.input == input && currentPosition == 0
    {
      this.input := input;
      currentPosition := 0;
    }

    /**
     * `next_char`: the character at the cursor, or `None` past the end; the
     * cursor moves on by one either way.
     */
    method NextChar() returns (c: Option<char>)
      modifies this
      ensures currentPosition == old(currentPosition) + 1
      ensures old(currentPosition) < |input| ==> c == Some(input[old(currentPosition)])
      ensures old(currentPosition) >= |input| ==> c == None
    {
      currentPosition := currentPosition + 1;
      if currentPosition - 1 < |input| {
        c := Some(input[currentPosition - 1]);
      } else {
        c := None;
      }
    }

    /** `putback`: steps the cursor back by one (a `usize`, so it must be positive). */
    method Putback()
      requires currentPosition > 0
      modifies this
      ensures currentPosition == old(currentPosition) - 1
    {
      currentPosition := currentPosition - 1;
    }

    /** `current_pos`: the cursor, for diagnostics. */
    method CurrentPos() returns (p: nat)
      ensures p == currentPosition
    {
      p := currentPosition;
    }
  }

  /** `CharStream::new`: refuses the empty string, otherwise starts at position 0. */
  method New(input: string) returns (r: Result<CharStream, EmptyStringError>)
    ensures r.Err? <==> input == []
    ensures r.Ok? ==> fresh(r.value) && r.value.input == input && r.value.currentPosition == 0
  {
    if input == [] {
      return Err(EmptyStringError);
    }
    var cs := new CharStream.FromString(input);
    r := Ok(cs);
  }

  /** A character put back is read again, and the cursor ends where it was after the first read. */
  method PutbackReplays(cs: CharStream) returns (first: Option<char>, again: Option<char>)
    modifies cs
    ensures first == again
    ensures cs.currentPosition == old(cs.currentPosition) + 1
  {
    first := cs.NextChar();
    cs.Putback();
    again := cs.NextChar();
  }
}
