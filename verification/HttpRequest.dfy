/** The request parser as it runs: a loop over a cursor buffer that updates the request's fields. */
module HttpRequest {
  import opened Bytes
  import opened HttpText

  /** A growing byte buffer with a cursor. */
  class DataBuffer {
    var chars: text
    var cur: nat

    constructor ()
      ensures chars == [] && cur == 0
    {
      chars, cur := [], 0;
    }

    predicate Valid()
      reads this
    {
      cur <= |chars|
    }

    function Ahead(): text
      requires Valid()
      reads this
    {
      chars[cur..]
    }

    method Append(p: text)
      requires Valid()
      modifies this`chars
      ensures Valid() && chars == old(chars) + p && Ahead() == old(Ahead()) + p
    {
      ghost var before := chars;
      var i := 0;
      while i < |p|
        invariant 0 <= i <= |p| && chars == before + p[..i]
      {
        chars := chars + [p[i]];
        i := i + 1;
      }
    }

    /** A position outside the buffer is ignored; a negative one is a huge unsigned one. */
    method SetCur(index: int) returns (ok: bool)
      requires Valid()
      modifies this`cur
      ensures Valid() && (ok <==> 0 <= index <= |chars|)
      ensures cur == if ok then index else old(cur)
    {
      if index < 0 || index > |chars| {
        return false;
      }
      cur := index;
      ok := true;
    }

    /** The position of the next CRLF, or the end of the buffer: never null. */
    method FindCRLF() returns (crlf: nat)
      requires Valid()
      ensures crlf == cur + FindCrlf(Ahead())
    {
      crlf := cur;
      while crlf < |chars| && !(crlf + 1 < |chars| && chars[crlf] == CR && chars[crlf + 1] == LF)
        invariant cur <= crlf <= |chars|
        invariant cur + FindCrlf(Ahead()) == crlf + FindCrlf(chars[crlf..])
      {
        assert chars[crlf..][1..] == chars[crlf + 1..];
        crlf := crlf + 1;
      }
    }

    method Clear()
      modifies this
      ensures chars == [] && cur == 0
    {
      chars, cur := [], 0;
    }
  }

  method RunFind(s: text, b: byte) returns (i: nat)
    ensures i == Find(s, b)
  {
    i := 0;
    while i < |s| && s[i] != b
      invariant i <= |s| && Find(s, b) == i + Find(s[i..], b)
    {
      assert s[i..][1..] == s[i + 1..];
      i := i + 1;
    }
  }

  class NetHTTPRequest {
    const inBuff: DataBuffer
    var state: ParseState
    var method_: Method
    var version: Version
    var path: text
    var query: text
    var headers: map<text, text>
    var cgi: bool

    constructor ()
      ensures Fields() == RESET && fresh(inBuff) && inBuff.chars == [] && inBuff.Valid()
    {
      inBuff := new DataBuffer();
      state, method_, version := ExpectRequestLine, INVALID, UnKnown;
      path, query, headers, cgi := [], [], map[], false;
    }

    function Fields(): Parse
      reads this
    {
      Parse(state, method_, version, path, query, headers, cgi)
    }

    /** resetParse; the cursor of the buffer stays where it is. */
    method ResetParse()
      modifies this
      ensures Fields() == RESET
    {
      state, method_, version := ExpectRequestLine, INVALID, UnKnown;
      path, query, headers, cgi := [], [], map[], false;
    }

    method SetMethod(name: text) returns (ok: bool)
      modifies this`method_
      ensures method_ == MethodOf(name) && (ok <==> method_ != INVALID)
    {
      if name == GET_TEXT {
        method_ := GET;
      } else if name == POST_TEXT {
        method_ := POST;
      } else if name == HEAD_TEXT {
        method_ := HEAD;
      } else if name == PUT_TEXT {
        method_ := PUT;
      } else if name == DELETE_TEXT {
        method_ := DELETE;
      } else {
        method_ := INVALID;
      }
      ok := method_ != INVALID;
    }

    method SetPath(name: text)
      modifies this`path
      ensures path == PathOf(name)
    {
      var subPath := name;
      if subPath == [47] {
        subPath := INDEX;
      }
      path := WEB_ROOT + subPath;
    }

    method ParseTarget(target: text)
      modifies this`path, this`query, this`cgi
      ensures Fields() == SetTarget(old(Fields()), target)
    {
      var question := RunFind(target, QUESTION);
      if question != |target| {
        SetPath(target[..question]);
        query := target[question + 1..];
        cgi := true;
      } else {
        SetPath(target);
      }
    }

    method ParseVersion(last: text) returns (ok: bool)
      modifies this`version
      ensures (Fields(), ok) == SetVersion(old(Fields()), last)
    {
      ok := |last| == 8 && last[..7] == HTTP_1;
      if ok {
        if last[7] == 49 {
          version := HTTP1_1;
        } else if last[7] == 48 {
          version := HTTP1_0;
        } else {
          ok := false;
        }
      }
    }

    method ParseRequestLine(line: text) returns (ok: bool)
      modifies this`method_, this`version, this`path, this`query, this`cgi
      ensures (Fields(), ok) == RequestLine(old(Fields()), line)
    {
      ok := false;
      var space := RunFind(line, SPACE);
      if space == |line| {
        return;
      }
      var known := SetMethod(line[..space]);
      if !known {
        return;
      }
      var rest := line[space + 1..];
      space := RunFind(rest, SPACE);
      if space != |rest| {
        ParseTarget(rest[..space]);
        ok := ParseVersion(rest[space + 1..]);
      }
    }

    method AddHeaderLine(line: text, colon: nat)
      requires colon == Find(line, COLON) < |line|
      modifies this`headers
      ensures Fields() == AddHeader(old(Fields()), line)
    {
      var key := line[..colon];
      var val := line[colon + 1..];
      ghost var whole := val;
      while |val| > 0 && val[0] == SPACE
        invariant TrimLeft(val) == TrimLeft(whole)
        decreases |val|
      {
        val := val[1..];
      }
      ghost var trimmed := val;
      while |val| > 0 && val[|val| - 1] == SPACE
        invariant TrimRight(val) == TrimRight(trimmed)
        decreases |val|
      {
        val := val[..|val| - 1];
      }
      headers := headers[key := val];
    }

    /** parseRequest: it returns what `Outcomes` says, for every buffer on which the loop ends. */
    method ParseRequest() returns (ok: bool)
      requires inBuff.Valid()
      requires Outcomes(Fields(), inBuff.Ahead()).Done?
      modifies this, inBuff`cur
      ensures inBuff.Valid()
      ensures Done(Fields(), ok) == old(Outcomes(Fields(), inBuff.Ahead()))
    {
      ghost var goal := Outcomes(Fields(), inBuff.Ahead());
      ok := true;
      var hasMore := true;
      while hasMore
        invariant inBuff.Valid() && goal.Done?
        invariant hasMore ==> ok && goal == Outcomes(Fields(), inBuff.Ahead())
        invariant !hasMore ==> goal == Done(Fields(), ok)
        decreases hasMore, Rank(state), |inBuff.chars| - inBuff.cur
      {
        if state == ExpectRequestLine {
          hasMore, ok := ParseStart();
        } else if state == ExpectHeaders {
          hasMore := ParseHeader();
        } else if state == ExpectBody {
          hasMore := ParseBody();
        }
      }
    }

    /** The request line. */
    method ParseStart() returns (hasMore: bool, ok: bool)
      requires inBuff.Valid() && state == ExpectRequestLine
      requires Outcomes(Fields(), inBuff.Ahead()).Done?
      modifies this, inBuff`cur
      ensures inBuff.Valid()
      ensures hasMore ==>
        ok && state == ExpectHeaders && Outcomes(Fields(), inBuff.Ahead()) == old(Outcomes(Fields(), inBuff.Ahead()))
      ensures !hasMore ==> Done(Fields(), ok) == old(Outcomes(Fields(), inBuff.Ahead()))
    {
      hasMore := true;
      var crlf := inBuff.FindCRLF();
      var line := inBuff.chars[inBuff.cur..crlf];
      assert line == Line(inBuff.Ahead());
      ok := ParseRequestLine(line);
      if ok {
        var _ := inBuff.SetCur(crlf + 2);
        assert inBuff.Ahead() == Behind(old(inBuff.Ahead()));
        state := ExpectHeaders;
      } else {
        hasMore := false;
      }
    }

    /** The body of a POST, whose length the headers announce. */
    method ParseBody() returns (hasMore: bool)
      requires inBuff.Valid() && state == ExpectBody
      requires Outcomes(Fields(), inBuff.Ahead()).Done?
      modifies this, inBuff`cur
      ensures inBuff.Valid() && !hasMore
      ensures Done(Fields(), true) == old(Outcomes(Fields(), inBuff.Ahead()))
    {
      var len := Atoi(Header(Fields(), CONTENT_LENGTH));
      query := inBuff.Ahead()[..len];
      var _ := inBuff.SetCur(len);
      state := GotAll;
      hasMore := false;
    }

    /** One line of the headers. */
    method ParseHeader() returns (hasMore: bool)
      requires inBuff.Valid() && state == ExpectHeaders
      requires Outcomes(Fields(), inBuff.Ahead()).Done?
      modifies this, inBuff`cur
      ensures inBuff.Valid()
      ensures hasMore ==> Outcomes(Fields(), inBuff.Ahead()) == old(Outcomes(Fields(), inBuff.Ahead()))
      ensures !hasMore ==> Done(Fields(), true) == old(Outcomes(Fields(), inBuff.Ahead()))
      ensures state == ExpectHeaders ==> inBuff.cur > old(inBuff.cur)
      ensures state != ExpectRequestLine
    {
      hasMore := true;
      var crlf := inBuff.FindCRLF();
      var line := inBuff.chars[inBuff.cur..crlf];
      assert line == Line(inBuff.Ahead());
      var colon := RunFind(line, COLON);
      if colon != |line| {
        AddHeaderLine(line, colon);
      } else {
        if method_ == POST {
          state := ExpectBody;
          cgi := true;
        } else {
          state := GotAll;
          hasMore := false;
        }
      }
      var _ := inBuff.SetCur(crlf + 2);
      assert inBuff.Ahead() == Behind(old(inBuff.Ahead()));
    }
  }
}
