/**
  Reading in pieces: file content through FUSE and SFTP, and FUSE directory paging.
  The content and the listing are what the handler returns; they do not change
  between the calls of one reader.
  */
module Reads {
  import opened Wrappers
  import opened Arithmetic
  import opened Bytes

  // ---------------------------------------------------------------------
  // File content
  // ---------------------------------------------------------------------

  datatype Errno = ENOENT | EIO

  datatype Status = Eof | Refused

  /** FUSE `read`: `path` is the inode's, `response` the router's answer. */
  function FuseRead(path: Option<string>, response: Result<seq<byte>, string>, offset: nat, size: nat)
    : (r: Result<seq<byte>, Errno>)
    ensures r.Success? <==> path.Some? && response.Success?
    ensures r.Failure? ==> r.error == if path.Some? then EIO else ENOENT
  {
    match path
    case None => Failure(ENOENT)
    case Some(_) =>
      match response
      case Failure(_) => Failure(EIO)
      case Success(data) =>
        var end := Min(offset + size, |data|);
        Success(if offset < |data| then data[offset..end] else [])
  }

  /** SFTP `read`: `path` is the open handle's. */
  function SftpRead(path: Option<string>, response: Result<seq<byte>, string>, offset: nat, len: nat)
    : (r: Result<seq<byte>, Status>)
    ensures r == Failure(Refused) <==> path.None? || response.Failure?
  {
    match path
    case None => Failure(Refused)
    case Some(_) =>
      match response
      case Failure(_) => Failure(Refused)
      case Success(data) =>
        if offset >= |data| then Failure(Eof) else Success(data[offset..Min(offset + len, |data|)])
  }

  /** What a reader has after reads of the given sizes, each starting where the last one ended. */
  function FuseCollected(path: string, data: seq<byte>, sizes: seq<nat>): seq<byte> {
    if sizes == [] then []
    else
      var before := FuseCollected(path, data, sizes[..|sizes| - 1]);
      match FuseRead(Some(path), Success(data), |before|, sizes[|sizes| - 1])
      case Success(chunk) => before + chunk
      case Failure(_) => before
  }

  function SftpCollected(path: string, data: seq<byte>, sizes: seq<nat>): seq<byte> {
    if sizes == [] then []
    else
      var before := SftpCollected(path, data, sizes[..|sizes| - 1]);
      match SftpRead(Some(path), Success(data), |before|, sizes[|sizes| - 1])
      case Success(chunk) => before + chunk
      case Failure(_) => before
  }

  function Sum(sizes: seq<nat>): nat {
    if sizes == [] then 0 else Sum(sizes[..|sizes| - 1]) + sizes[|sizes| - 1]
  }

  lemma {:induction false} SumAtLeastLength(sizes: seq<nat>)
    requires forall i :: 0 <= i < |sizes| ==> sizes[i] > 0
    ensures Sum(sizes) >= |sizes|
  {
    if sizes != [] {
      SumAtLeastLength(sizes[..|sizes| - 1]);
    }
  }

  lemma {:induction false} FuseCollectsPrefix(path: string, data: seq<byte>, sizes: seq<nat>)
    ensures FuseCollected(path, data, sizes) == data[..Min(Sum(sizes), |data|)]
  {
    if sizes != [] {
      var before := sizes[..|sizes| - 1];
      FuseCollectsPrefix(path, data, before);
      var from := Min(Sum(before), |data|);
      var to := Min(from + sizes[|sizes| - 1], |data|);
      assert data[..from] + data[from..to] == data[..to];
      assert |data[..from]| == from;
    }
  }

  lemma {:induction false} SftpCollectsPrefix(path: string, data: seq<byte>, sizes: seq<nat>)
    ensures SftpCollected(path, data, sizes) == data[..Min(Sum(sizes), |data|)]
  {
    if sizes != [] {
      var before := sizes[..|sizes| - 1];
      SftpCollectsPrefix(path, data, before);
      var from := Min(Sum(before), |data|);
      var to := Min(from + sizes[|sizes| - 1], |data|);
      assert data[..from] + data[from..to] == data[..to];
      assert |data[..from]| == from;
    }
  }

  /**
    FUSE reads of any positive sizes reassemble the content: the next read comes back
    empty exactly when all of it has been delivered, which takes at most one read a byte.
    */
  lemma FuseReadsReassemble(path: string, data: seq<byte>, sizes: seq<nat>, next: nat)
    requires next > 0 && forall i :: 0 <= i < |sizes| ==> sizes[i] > 0
    ensures var got := FuseCollected(path, data, sizes);
            && got <= data
            && (FuseRead(Some(path), Success(data), |got|, next) == Success([]) <==> got == data)
            && (|sizes| >= |data| ==> got == data)
  {
    FuseCollectsPrefix(path, data, sizes);
    SumAtLeastLength(sizes);
  }

  /** SFTP reads do too; the end of the file is reported at every offset at or past the end, and at no other. */
  lemma SftpReadsReassemble(path: string, data: seq<byte>, sizes: seq<nat>, next: nat, offset: nat)
    requires next > 0 && forall i :: 0 <= i < |sizes| ==> sizes[i] > 0
    ensures var got := SftpCollected(path, data, sizes);
            && got <= data
            && (SftpRead(Some(path), Success(data), |got|, next) == Failure(Eof) <==> got == data)
            && (|sizes| >= |data| ==> got == data)
    ensures SftpRead(Some(path), Success(data), offset, next) == Failure(Eof) <==> offset >= |data|
  {
    SftpCollectsPrefix(path, data, sizes);
    SumAtLeastLength(sizes);
  }

  // ---------------------------------------------------------------------
  // Directory paging
  // ---------------------------------------------------------------------

  datatype Kind = Directory | RegularFile

  datatype Entry = Entry(kind: Kind, name: string)

  /** An entry in a reply, with the offset at which a reader resumes after it. */
  datatype Listed = Listed(entry: Entry, offset: nat)

  // The room an entry takes in a reply buffer is up to the FUSE library: a function `size`.

  function TotalSize(size: Entry -> nat, entries: seq<Entry>): nat {
    if entries == [] then 0 else TotalSize(size, entries[..|entries| - 1]) + size(entries[|entries| - 1])
  }

  /** The reply to a read at `offset`: the entries after it, in order, as many as fit. */
  ghost predicate IsPage(size: Entry -> nat, entries: seq<Entry>, offset: nat, capacity: nat, page: seq<Listed>) {
    var start := Min(offset, |entries|);
    && start + |page| <= |entries|
    && (forall i :: 0 <= i < |page| ==> page[i] == Listed(entries[start + i], start + i + 1))
    && TotalSize(size, entries[start..start + |page|]) <= capacity
    && (start + |page| == |entries|
        || TotalSize(size, entries[start..start + |page|]) + size(entries[start + |page|]) > capacity)
  }

  /** The tail of `readdir`: the sequence number counts skipped entries too. */
  method Readdir(size: Entry -> nat, entries: seq<Entry>, offset: nat, capacity: nat) returns (page: seq<Listed>)
    ensures IsPage(size, entries, offset, capacity, page)
  {
    page := [];
    ghost var start := Min(offset, |entries|);
    var used, number := 0, 0;
    while number < |entries|
      invariant 0 <= number <= |entries|
      invariant number <= offset ==> page == []
      invariant number > offset ==> |page| == number - start
      invariant forall i :: 0 <= i < |page| ==> page[i] == Listed(entries[start + i], start + i + 1)
      invariant start + |page| <= |entries| && used == TotalSize(size, entries[start..start + |page|]) <= capacity
    {
      var e := entries[number];
      number := number + 1;
      if number <= offset {
        continue;
      }
      assert start + |page| == number - 1;
      if used + size(e) > capacity {
        return;
      }
      assert entries[start..number][..|page|] == entries[start..number - 1];
      used, page := used + size(e), page + [Listed(e, number)];
    }
  }

  /** A reader that resumes from the last offset it was given, starting at 0. */
  function Resume(offset: nat, page: seq<Listed>): nat {
    if page == [] then offset else page[|page| - 1].offset
  }

  /** A whole listing: page after page, each reply with its own capacity. */
  ghost predicate IsListing(
    size: Entry -> nat, entries: seq<Entry>, capacities: seq<nat>, pages: seq<seq<Listed>>, offsets: seq<nat>)
  {
    && |offsets| == |pages| + 1 && |capacities| == |pages| && offsets[0] == 0
    && forall k {:trigger pages[k]} :: 0 <= k < |pages| ==>
         IsPage(size, entries, offsets[k], capacities[k], pages[k]) && offsets[k + 1] == Resume(offsets[k], pages[k])
  }

  function Entries(page: seq<Listed>): (s: seq<Entry>)
    ensures |s| == |page|
  {
    seq(|page|, i requires 0 <= i < |page| => page[i].entry)
  }

  function AllEntries(pages: seq<seq<Listed>>): seq<Entry> {
    if pages == [] then [] else AllEntries(pages[..|pages| - 1]) + Entries(pages[|pages| - 1])
  }

  /** A reply with room for one entry is empty only at the end of the listing. */
  lemma PageAdvances(size: Entry -> nat, entries: seq<Entry>, offset: nat, capacity: nat, page: seq<Listed>)
    requires IsPage(size, entries, offset, capacity, page) && offset <= |entries|
    requires forall i :: 0 <= i < |entries| ==> size(entries[i]) <= capacity
    ensures Entries(page) == entries[offset..Resume(offset, page)] && offset <= Resume(offset, page) <= |entries|
    ensures Resume(offset, page) == offset <==> page == []
    ensures page == [] <==> offset == |entries|
  {
  }

  /**
    Paging delivers every entry exactly once and in order, whatever room the replies
    have: what has been delivered is always the listing up to the resume offset; a
    page is empty exactly when everything was delivered before it; and there are no
    more non-empty pages than entries.
    */
  lemma {:induction false} PagingDeliversAll(
    size: Entry -> nat, entries: seq<Entry>, capacities: seq<nat>, pages: seq<seq<Listed>>, offsets: seq<nat>, n: nat)
    requires IsListing(size, entries, capacities, pages, offsets) && n <= |pages|
    requires forall i, k :: 0 <= i < |entries| && 0 <= k < |capacities| ==> size(entries[i]) <= capacities[k]
    ensures offsets[n] <= |entries| && AllEntries(pages[..n]) == entries[..offsets[n]]
    ensures n > 0 ==> (pages[n - 1] == [] <==> AllEntries(pages[..n - 1]) == entries)
    ensures offsets[n] >= Min(n, |entries|)
  {
    if n > 0 {
      PagingDeliversAll(size, entries, capacities, pages, offsets, n - 1);
      PageAdvances(size, entries, offsets[n - 1], capacities[n - 1], pages[n - 1]);
      assert pages[..n][..n - 1] == pages[..n - 1];
      assert |entries[..offsets[n - 1]]| == offsets[n - 1];
      assert entries[..offsets[n]] == entries[..offsets[n - 1]] + entries[offsets[n - 1]..offsets[n]];
    }
  }
}
