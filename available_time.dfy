/** AvailableDateTimeAndRoomType.java: a free start and room type, compared
    by start and then by room type. */
module AvailableTime {
  import opened Temporal
  import opened SlotData
  import opened Sorting

  /** The value record; Lombok's equals compares both fields, which is
      datatype equality here. */
  datatype AvailableDateTimeAndRoomType = AvailableDateTimeAndRoomType(dateTime: DateTime, roomType: RoomType)

  /** compareTo through NATURAL_ORDER_COMPARATOR: LocalDateTime.compareTo on
      the start (only its sign is modelled), then Enum.compareTo on the room
      type, which is the difference of the ordinals. */
  function CompareTo(a: AvailableDateTimeAndRoomType, b: AvailableDateTimeAndRoomType): int
  {
    if a.dateTime < b.dateTime then -1
    else if a.dateTime > b.dateTime then 1
    else Ordinal(a.roomType) - Ordinal(b.roomType)
  }

  /** The order sorted() puts values in: compareTo(a, b) <= 0. */
  function Le(a: AvailableDateTimeAndRoomType, b: AvailableDateTimeAndRoomType): bool
  {
    CompareTo(a, b) <= 0
  }

  /** The start decides first; at equal starts SHOWER comes before BATH. */
  lemma CompareToOrdersByStartThenRoomType(a: AvailableDateTimeAndRoomType, b: AvailableDateTimeAndRoomType)
    ensures a.dateTime < b.dateTime ==> CompareTo(a, b) < 0
    ensures a.dateTime > b.dateTime ==> CompareTo(a, b) > 0
    ensures a.dateTime == b.dateTime ==>
              (CompareTo(a, b) < 0 <==> a.roomType == Shower && b.roomType == Bath)
  {
  }

  /** compareTo is zero exactly when equals holds, and swapping the
      arguments flips its sign. */
  lemma CompareToIsConsistentWithEquals(a: AvailableDateTimeAndRoomType, b: AvailableDateTimeAndRoomType)
    ensures CompareTo(a, b) == 0 <==> a == b
    ensures CompareTo(a, b) < 0 <==> CompareTo(b, a) > 0
  {
  }

  /** Comparing this way is a total preorder, so sorted() orders by it. */
  lemma LeIsTotalPreorder()
    ensures TotalPreorder(Le)
  {
  }

  /** Values compared both ways are equal: the order is total. */
  lemma LeIsAntisymmetric(a: AvailableDateTimeAndRoomType, b: AvailableDateTimeAndRoomType)
    requires Le(a, b) && Le(b, a)
    ensures a == b
  {
  }
}
