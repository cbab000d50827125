/** One entry of the static problem catalog (constants.ts), kept as fixture data
    for a scenario about selecting a problem. */
module Catalog {
  import opened Types

  /** The `binary-search` entry. */
  const BinarySearch: Problem := Problem(
    id := "binary-search",
    title := "이진 탐색 (Binary Search)",
    category := "탐색 (Search)",
    difficulty := Easy,
    description := "정렬된 리스트에서 특정 값을 찾는 효율적인 알고리즘입니다. 범위를 반씩 줄여가며 탐색합니다.",
    solutionCode :=
      "def binary_search(nums: list[int], target: int) -> int:\n" +
      "    left, right = 0, len(nums) - 1\n" +
      "\n" +
      "    while left <= right:\n" +
      "        # 중간 인덱스 계산 (정수 나눗셈)\n" +
      "        mid = (left + right) // 2\n" +
      "\n" +
      "        if nums[mid] == target:\n" +
      "            return mid  # 값을 찾음\n" +
      "        elif nums[mid] < target:\n" +
      "            left = mid + 1  # 오른쪽 절반 탐색\n" +
      "        else:\n" +
      "            right = mid - 1  # 왼쪽 절반 탐색\n" +
      "\n" +
      "    return -1  # 값을 찾지 못함",
    boilerplate :=
      "def binary_search(nums: list[int], target: int) -> int:\n" +
      "    # 왼쪽의 정답 코드를 보며 그대로 따라 작성해보세요.\n" +
      "    pass",
    testCases := ["nums = [-1,0,3,5,9,12], target = 9 => 4", "nums = [-1,0,3,5,9,12], target = 2 => -1"])
}
