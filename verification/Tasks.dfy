/** What the threads of the two shared buffers have to do. */
module Tasks {
  datatype Kind = Producer | Consumer {
    function Other(): Kind {
      if Producer? then Consumer else Producer
    }
  }

  /** What a thread still has to put in, or how often it still has to take something out. */
  datatype Task = Insert(items: seq<int>) | Extract(count: nat) {
    function Kind(): Kind {
      if Insert? then Producer else Consumer
    }

    function Left(): nat {
      if Insert? then |items| else count
    }

    /** The task after one of its operations. */
    function Rest(): Task {
      if Insert? then Insert(if items == [] then [] else items[1..])
      else Extract(if count == 0 then 0 else count - 1)
    }
  }
}
